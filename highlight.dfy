/** The highlight effect of the main view (App.tsx): the star is loaded into
    a graph whose nodes and edges carry display attributes; whenever the
    queries or the selection change, every attribute is reset and then the
    highlighted node, its neighbours and the edges touching it are restyled.
    The renderer's reducers, which turn these attributes into fonts,
    borders and shadows, are not modelled. */
module Highlight {
  import opened GraphData
  import opened Search
  import opened AppStar

  /** The attributes the effect writes on a node: `color`, `size`,
      `highlighted`, `labelFontWeight` (bold or absent) and `labelSize`. */
  datatype NodeStyle = NodeStyle(
    color: Option<string>,
    size: Option<real>,
    highlighted: bool,
    bold: bool,
    labelSize: Option<real>)

  /** The attributes the effect writes on an edge. */
  datatype EdgeStyle = EdgeStyle(color: Option<string>, size: Option<real>)

  const FocusStyle: NodeStyle := NodeStyle(Some("#ffeb3b"), Some(28.0), true, true, Some(24.0))
  const PlainEdge: EdgeStyle := EdgeStyle(Some("#bbb"), Some(1.5))
  const HotEdge: EdgeStyle := EdgeStyle(Some("#ff9800"), Some(4.5))

  /** The attributes a node carries when added: those of its record. */
  function Initial(n: Node): NodeStyle {
    NodeStyle(n.color, n.size, false, false, None)
  }

  /** The reset style of key `k`: colour and size of the first node with
      that key in the loaded list (`orig?.color || "#888"`,
      `orig?.size || 8`), no highlight, no bold label, no label size. */
  function BaseStyle(all: seq<Node>, k: string): (s: NodeStyle)
    ensures !s.highlighted && !s.bold && s.labelSize.None?
    ensures Lookup(all, k).None? ==> s.color == Some("#888") && s.size == Some(8.0)
    ensures Lookup(all, k).Some? ==>
      s.color == Some(TextOr(Lookup(all, k).value.color, "#888"))
      && s.size == Some(NumberOr(Lookup(all, k).value.size, 8.0))
  {
    var orig := Lookup(all, k);
    var color := if orig.Some? then orig.value.color else None;
    var size := if orig.Some? then orig.value.size else None;
    NodeStyle(Some(TextOr(color, "#888")), Some(NumberOr(size, 8.0)), false, false, None)
  }

  /** What the neighbour loop writes over a node's style; `highlighted`
      stays as it was. */
  function Emphasized(s: NodeStyle): NodeStyle {
    s.(color := Some("#1976d2"), size := Some(18.0), bold := true, labelSize := Some(18.0))
  }

  /** The style of key `k` after the effect, given the highlight key. */
  function StyleFor(all: seq<Node>, edges: seq<Edge>, hk: Option<string>, k: string): (s: NodeStyle)
    ensures s.highlighted <==> hk == Some(k)
    ensures s.bold <==> hk.Some? && (k == hk.value || Adjacent(edges, hk.value, k))
  {
    match hk
    case None => BaseStyle(all, k)
    case Some(h) =>
      if k == h then FocusStyle
      else if Adjacent(edges, h, k) then Emphasized(BaseStyle(all, k))
      else BaseStyle(all, k)
  }

  function EdgeStyleFor(e: Edge, hk: Option<string>): (r: EdgeStyle)
    ensures r == HotEdge <==> hk.Some? && Touches(e, hk.value)
    ensures r != HotEdge ==> r == PlainEdge
  {
    if hk.Some? && Touches(e, hk.value) then HotEdge else PlainEdge
  }

  function EdgeStyles(edges: seq<Edge>, hk: Option<string>): (r: seq<EdgeStyle>)
    ensures |r| == |edges| && forall i :: 0 <= i < |edges| ==> r[i] == EdgeStyleFor(edges[i], hk)
  {
    seq(|edges|, i requires 0 <= i < |edges| => EdgeStyleFor(edges[i], hk))
  }

  /** Only the highlighted node is marked `highlighted`; a node has a bold
      label exactly when it is the highlighted node or one of its neighbour
      keys (the keys the star builder places around a centre). */
  lemma BoldExactlyFocusAndNeighbors(all: seq<Node>, edges: seq<Edge>, h: string, k: string)
    ensures StyleFor(all, edges, Some(h), k).highlighted <==> k == h
    ensures StyleFor(all, edges, Some(h), k).bold <==> k == h || k in NeighborKeys(edges, h)
  {
    AdjacentIffNeighbor(edges, h, k);
  }

  /** Without a highlight key nothing is bold and every edge is plain. */
  lemma NoHighlightNoEmphasis(all: seq<Node>, edges: seq<Edge>, k: string)
    ensures !StyleFor(all, edges, None, k).bold && !StyleFor(all, edges, None, k).highlighted
    ensures forall i :: 0 <= i < |edges| ==> EdgeStyles(edges, None)[i] == PlainEdge
  {
  }

  function CountHot(styles: seq<EdgeStyle>): nat {
    if styles == [] then 0 else (if styles[0] == HotEdge then 1 else 0) + CountHot(styles[1..])
  }

  /** There are as many orange edges as edges touching the highlighted
      node, which is as many as it has neighbour keys. */
  lemma {:induction false} HotEdgesAreIncident(edges: seq<Edge>, h: string)
    ensures CountHot(EdgeStyles(edges, Some(h))) == |Incident(edges, h)| == |NeighborKeys(edges, h)|
  {
    if edges != [] {
      HotEdgesAreIncident(edges[1..], h);
      assert EdgeStyles(edges, Some(h))[1..] == EdgeStyles(edges[1..], Some(h));
      assert HotEdge != PlainEdge;
    }
  }

  predicate DistinctKeys(nodes: seq<Node>) {
    forall i, j :: 0 <= i < j < |nodes| ==> nodes[i].key != nodes[j].key
  }

  /** The highlight key: with a query set, the key of the first graph node
      the matcher accepts (the graph node's label is its record's label),
      where "" counts as none (`|| null`); otherwise the selected node if
      it is not "". */
  function HighlightKey(graphNodes: seq<Node>, q: Query, selected: Option<string>): (r: Option<string>)
    ensures r.Some? ==> r.value != ""
    ensures IsSet(q) ==>
      (r.Some? <==> FindMatch(graphNodes, q).Some? && graphNodes[FindMatch(graphNodes, q).value].key != "")
    ensures IsSet(q) && r.Some? ==> r.value == graphNodes[FindMatch(graphNodes, q).value].key
    ensures !IsSet(q) ==> (r.Some? <==> selected.Some? && selected.value != "")
    ensures !IsSet(q) && r.Some? ==> r == selected
  {
    if IsSet(q) then
      match FindMatch(graphNodes, q)
      case Some(i) => if graphNodes[i].key != "" then Some(graphNodes[i].key) else None
      case None => None
    else if selected.Some? && selected.value != "" then selected
    else None
  }

  /** The matcher looks at key and label only. */
  lemma MatchesIgnoresPosition(n: Node, q: Query, x: real, y: real)
    ensures Matches(n.(x := x, y := y), q) == Matches(n, q)
  {
  }

  /** With a query that matches, the node highlighted in the star graph is
      its centre (when the centre's key is not ""). */
  lemma StarHighlightsCentre(nodes: seq<Node>, edges: seq<Edge>, q: Query, place: nat -> Point, selected: Option<string>)
    requires IsSet(q) && FindMatch(nodes, q).Some?
    requires nodes[FindMatch(nodes, q).value].key != ""
    ensures HighlightKey(BuildStar(nodes, edges, q, place).nodes, q, selected)
      == Some(nodes[FindMatch(nodes, q).value].key)
  {
    var centre := nodes[FindMatch(nodes, q).value];
    var star := BuildStar(nodes, edges, q, place).nodes;
    MatchesIgnoresPosition(centre, q, 0.0, 0.0);
    assert Matches(star[0], q);
    assert FindMatch(star, q) == Some(0);
  }

  /** Clicking a graph node fills the queries with its key and label; the
      next highlight is then that node, provided its key is not "" and no
      earlier graph node has the same key up to case. */
  lemma ClickedNodeIsHighlighted(graphNodes: seq<Node>, i: nat, selected: Option<string>)
    requires i < |graphNodes| && graphNodes[i].key != ""
    requires forall j :: 0 <= j < i ==> Text.Lower(graphNodes[j].key) != Text.Lower(graphNodes[i].key)
    ensures HighlightKey(graphNodes, Query(graphNodes[i].key, graphNodes[i].labelText), selected)
      == Some(graphNodes[i].key)
  {
    SelfQueryFindsNode(graphNodes, i);
  }

  /** The keys among the first `i + 1` nodes are those among the first `i`
      and the key of node `i`. */
  lemma HasKeyExtend(ns: seq<Node>, i: nat)
    requires i < |ns|
    ensures forall k :: HasKey(ns[..i + 1], k) <==> HasKey(ns[..i], k) || k == ns[i].key
  {
    forall k
      ensures HasKey(ns[..i + 1], k) <==> HasKey(ns[..i], k) || k == ns[i].key
    {
      if HasKey(ns[..i + 1], k) && k != ns[i].key {
        var j :| 0 <= j < i + 1 && ns[..i + 1][j].key == k;
        assert ns[..i][j].key == k;
      }
      assert ns[..i + 1][i] == ns[i];
      if HasKey(ns[..i], k) {
        var j :| 0 <= j < i && ns[..i][j].key == k;
        assert ns[..i + 1][j].key == k;
      }
    }
  }

  /** One step of the neighbour loop: visiting the `i`-th node emphasises
      it when it is adjacent to `h`, which brings it to its final style and
      leaves every other node's style alone. */
  lemma EmphasizeStep(all: seq<Node>, nodes: seq<Node>, edges: seq<Edge>, h: string,
                      start: map<string, NodeStyle>, before: map<string, NodeStyle>, i: nat)
    requires DistinctKeys(nodes) && i < |nodes| && !Adjacent(edges, h, h)
    requires forall j :: 0 <= j < |nodes| ==> nodes[j].key in before && nodes[j].key in start
    requires forall k :: k in start ==> start[k] == (if k == h then FocusStyle else BaseStyle(all, k))
    requires forall j :: 0 <= j < i ==> before[nodes[j].key] == StyleFor(all, edges, Some(h), nodes[j].key)
    requires forall j :: i <= j < |nodes| ==> before[nodes[j].key] == start[nodes[j].key]
    ensures var k := nodes[i].key;
      var after := if Adjacent(edges, h, k) then before[k := Emphasized(before[k])] else before;
      && (forall j :: 0 <= j <= i ==> after[nodes[j].key] == StyleFor(all, edges, Some(h), nodes[j].key))
      && (forall j :: i < j < |nodes| ==> after[nodes[j].key] == start[nodes[j].key])
  {
    var k := nodes[i].key;
    assert before[k] == start[k];
    assert forall j :: 0 <= j < |nodes| && j != i ==> nodes[j].key != k;
  }

  /** One step of the reset loop: node `i` gets its base style, and the
      nodes before it keep theirs. */
  lemma ResetStep(all: seq<Node>, nodes: seq<Node>, before: map<string, NodeStyle>, i: nat)
    requires i < |nodes|
    requires forall j :: 0 <= j < i ==> nodes[j].key in before && before[nodes[j].key] == BaseStyle(all, nodes[j].key)
    ensures var after := before[nodes[i].key := BaseStyle(all, nodes[i].key)];
      forall j :: 0 <= j <= i ==> nodes[j].key in after && after[nodes[j].key] == BaseStyle(all, nodes[j].key)
  {
  }

  /** A style map whose keys are the nodes' keys and which gives every node
      the style `style` picks for it gives every key that style. */
  lemma StylesCover(nodes: seq<Node>, styles: map<string, NodeStyle>, style: string -> NodeStyle)
    requires forall k :: k in styles ==> HasKey(nodes, k)
    requires forall j :: 0 <= j < |nodes| ==> nodes[j].key in styles && styles[nodes[j].key] == style(nodes[j].key)
    ensures forall k :: k in styles ==> styles[k] == style(k)
  {
    forall k | k in styles
      ensures styles[k] == style(k)
    {
      var j :| 0 <= j < |nodes| && nodes[j].key == k;
    }
  }

  /** After the neighbour loop every key has its highlighted style. */
  lemma EmphasizeCovers(all: seq<Node>, nodes: seq<Node>, edges: seq<Edge>, h: string, styles: map<string, NodeStyle>)
    requires forall k :: k in styles ==> HasKey(nodes, k)
    requires forall j :: 0 <= j < |nodes| ==> nodes[j].key in styles && styles[nodes[j].key] == StyleFor(all, edges, Some(h), nodes[j].key)
    ensures forall k :: k in styles ==> styles[k] == StyleFor(all, edges, Some(h), k)
  {
    StylesCover(nodes, styles, k => StyleFor(all, edges, Some(h), k));
  }

  /** The graph the renderer draws: nodes keyed by their record's key, edges
      in insertion order, and the display attributes of each. */
  class StyledGraph {
    var nodes: seq<Node>
    var edges: seq<Edge>
    var nodeStyle: map<string, NodeStyle>
    var edgeStyle: seq<EdgeStyle>

    /** What the graph accepted when it was built: keys are distinct, every
        edge joins two different nodes and no edge was added twice; every
        node has a style and every edge one. */
    ghost predicate Valid()
      reads this
    {
      && DistinctKeys(nodes)
      && (forall e :: e in edges ==> HasKey(nodes, e.source) && HasKey(nodes, e.target) && e.source != e.target)
      && (forall i, j :: 0 <= i < j < |edges| ==> edges[i] != edges[j])
      && (forall k :: k in nodeStyle <==> HasKey(nodes, k))
      && |edgeStyle| == |edges|
    }

    /** Building the graph from the star (App.tsx lines 182-184): every
        node is added under its key with its record as attributes, then
        every edge. The graph refuses a repeated key or a repeated edge,
        which the requires exclude. */
    constructor (starNodes: seq<Node>, starEdges: seq<Edge>)
      requires DistinctKeys(starNodes)
      requires forall e :: e in starEdges ==> HasKey(starNodes, e.source) && HasKey(starNodes, e.target) && e.source != e.target
      requires forall i, j :: 0 <= i < j < |starEdges| ==> starEdges[i] != starEdges[j]
      ensures Valid()
      ensures nodes == starNodes && edges == starEdges
      ensures forall i :: 0 <= i < |nodes| ==> nodeStyle[nodes[i].key] == Initial(nodes[i])
      ensures forall i :: 0 <= i < |edges| ==> edgeStyle[i] == EdgeStyle(None, None)
    {
      nodes, edges := starNodes, starEdges;
      var styles: map<string, NodeStyle> := map[];
      for i := 0 to |starNodes|
        invariant forall k :: k in styles <==> HasKey(starNodes[..i], k)
        invariant forall j :: 0 <= j < i ==> styles[starNodes[j].key] == Initial(starNodes[j])
      {
        styles := styles[starNodes[i].key := Initial(starNodes[i])];
        HasKeyExtend(starNodes, i);
      }
      assert starNodes[..|starNodes|] == starNodes;
      nodeStyle := styles;
      var attrs: seq<EdgeStyle> := [];
      for i := 0 to |starEdges|
        invariant |attrs| == i && forall j :: 0 <= j < i ==> attrs[j] == EdgeStyle(None, None)
      {
        attrs := attrs + [EdgeStyle(None, None)];
      }
      edgeStyle := attrs;
    }

    /** The reset half of the effect (App.tsx lines 297-308): every node
        back to its base style, every edge plain. */
    method ResetAll(all: seq<Node>)
      requires Valid()
      modifies this
      ensures Valid()
      ensures nodes == old(nodes) && edges == old(edges) && nodeStyle.Keys == old(nodeStyle.Keys)
      ensures forall k :: k in nodeStyle ==> nodeStyle[k] == BaseStyle(all, k)
      ensures edgeStyle == EdgeStyles(edges, None)
    {
      for i := 0 to |nodes|
        invariant nodes == old(nodes) && edges == old(edges) && edgeStyle == old(edgeStyle)
        invariant nodeStyle.Keys == old(nodeStyle.Keys)
        invariant forall j :: 0 <= j < i ==> nodes[j].key in nodeStyle && nodeStyle[nodes[j].key] == BaseStyle(all, nodes[j].key)
      {
        ResetStep(all, nodes, nodeStyle, i);
        assert HasKey(nodes, nodes[i].key);
        nodeStyle := nodeStyle[nodes[i].key := BaseStyle(all, nodes[i].key)];
      }
      var reset := nodeStyle;
      for i := 0 to |edges|
        invariant nodes == old(nodes) && edges == old(edges) && nodeStyle == reset
        invariant |edgeStyle| == |edges|
        invariant forall j :: 0 <= j < i ==> edgeStyle[j] == PlainEdge
      {
        edgeStyle := edgeStyle[i := PlainEdge];
      }
      StylesCover(nodes, nodeStyle, k => BaseStyle(all, k));
    }

    /** The node half of the highlight (App.tsx lines 335-346): the
        highlighted node gets the focus style, then every node adjacent to
        it has its colour, size, label weight and label size overwritten. */
    method HighlightNodes(all: seq<Node>, h: string)
      requires Valid() && HasKey(nodes, h)
      requires forall k :: k in nodeStyle ==> nodeStyle[k] == BaseStyle(all, k)
      modifies this
      ensures Valid()
      ensures nodes == old(nodes) && edges == old(edges) && edgeStyle == old(edgeStyle)
      ensures nodeStyle.Keys == old(nodeStyle.Keys)
      ensures forall k :: k in nodeStyle ==> nodeStyle[k] == StyleFor(all, edges, Some(h), k)
    {
      nodeStyle := nodeStyle[h := FocusStyle];
      EmphasizeNeighbors(all, h);
    }

    /** The neighbour loop: the graph visits each node adjacent to `h` once. */
    method EmphasizeNeighbors(all: seq<Node>, h: string)
      requires Valid() && HasKey(nodes, h)
      requires forall k :: k in nodeStyle ==> nodeStyle[k] == (if k == h then FocusStyle else BaseStyle(all, k))
      modifies this
      ensures Valid()
      ensures nodes == old(nodes) && edges == old(edges) && edgeStyle == old(edgeStyle)
      ensures nodeStyle.Keys == old(nodeStyle.Keys)
      ensures forall k :: k in nodeStyle ==> nodeStyle[k] == StyleFor(all, edges, Some(h), k)
    {
      NotSelfAdjacent(h);
      ghost var start := nodeStyle;
      for i := 0 to |nodes|
        invariant nodes == old(nodes) && edges == old(edges) && edgeStyle == old(edgeStyle)
        invariant nodeStyle.Keys == start.Keys
        invariant forall k :: k in nodeStyle <==> HasKey(nodes, k)
        invariant forall j :: 0 <= j < i ==> nodeStyle[nodes[j].key] == StyleFor(all, edges, Some(h), nodes[j].key)
        invariant forall j :: i <= j < |nodes| ==> nodeStyle[nodes[j].key] == start[nodes[j].key]
      {
        var k := nodes[i].key;
        assert HasKey(nodes, k);
        EmphasizeStep(all, nodes, edges, h, start, nodeStyle, i);
        if Adjacent(edges, h, k) {
          nodeStyle := nodeStyle[k := Emphasized(nodeStyle[k])];
        }
      }
      EmphasizeCovers(all, nodes, edges, h, nodeStyle);
    }

    /** The edge half of the highlight (App.tsx lines 347-352): every edge
        with the highlighted node at either end turns orange and thicker. */
    method HighlightEdges(h: string)
      requires Valid()
      requires edgeStyle == EdgeStyles(edges, None)
      modifies this
      ensures Valid()
      ensures nodes == old(nodes) && edges == old(edges) && nodeStyle == old(nodeStyle)
      ensures edgeStyle == EdgeStyles(edges, Some(h))
    {
      for i := 0 to |edges|
        invariant nodes == old(nodes) && edges == old(edges) && nodeStyle == old(nodeStyle)
        invariant |edgeStyle| == |edges|
        invariant forall j :: 0 <= j < i ==> edgeStyle[j] == EdgeStyleFor(edges[j], Some(h))
        invariant forall j :: i <= j < |edges| ==> edgeStyle[j] == PlainEdge
      {
        if Touches(edges[i], h) {
          edgeStyle := edgeStyle[i := HotEdge];
        }
      }
    }

    /** The highlight effect (App.tsx lines 296-353) for a given highlight
        key: reset every node from the loaded list `all` and every edge,
        then restyle the highlighted node, the nodes adjacent to it and the
        edges touching it. Setting an attribute on a key that is not a node
        throws, which the requires excludes. */
    method Restyle(all: seq<Node>, hk: Option<string>)
      requires Valid()
      requires hk.Some? ==> HasKey(nodes, hk.value)
      modifies this
      ensures Valid()
      ensures nodes == old(nodes) && edges == old(edges) && nodeStyle.Keys == old(nodeStyle.Keys)
      ensures forall k :: k in nodeStyle ==> nodeStyle[k] == StyleFor(all, edges, hk, k)
      ensures edgeStyle == EdgeStyles(edges, hk)
    {
      ResetAll(all);
      if hk.Some? {
        HighlightNodes(all, hk.value);
        HighlightEdges(hk.value);
      }
    }

    /** No edge joins a node to itself. */
    lemma NotSelfAdjacent(h: string)
      requires Valid()
      ensures !Adjacent(edges, h, h)
    {
      forall i | 0 <= i < |edges|
        ensures !Links(edges[i], h, h)
      {
        assert edges[i] in edges;
      }
    }
  }
}
