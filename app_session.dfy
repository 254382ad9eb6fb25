/** The state of the main view (App.tsx) and the handlers that change it:
    the two query boxes, the Reset button, clicks on a node or on the
    background, the Close button of the details panel, loading and
    uploading a graph, building the star graph and the highlight effect. */
module AppSession {
  import opened GraphData
  import opened Search
  import opened AppStar
  import opened Highlight

  class Session {
    var nodes: seq<Node>
    var edges: seq<Edge>
    var loading: bool
    var searchKey: string
    var searchLabel: string
    var selectedNode: Option<string>
    var nodeInfo: Option<Node>

    function CurrentQuery(): Query
      reads this
    {
      Query(searchKey, searchLabel)
    }

    /** The initial state (App.tsx lines 13-19): loading, no graph, empty
        queries, nothing selected. */
    constructor ()
      ensures loading && nodes == [] && edges == []
      ensures searchKey == "" && searchLabel == ""
      ensures selectedNode.None? && nodeInfo.None?
      ensures !IsSet(CurrentQuery())
    {
      nodes, edges, loading := [], [], true;
      searchKey, searchLabel := "", "";
      selectedNode, nodeInfo := None, None;
    }

    /** The graph document has arrived (App.tsx lines 173-177). */
    method Loaded(loadedNodes: seq<Node>, loadedEdges: seq<Edge>)
      modifies this
      ensures nodes == loadedNodes && edges == loadedEdges && !loading
      ensures searchKey == old(searchKey) && searchLabel == old(searchLabel)
      ensures selectedNode == old(selectedNode) && nodeInfo == old(nodeInfo)
    {
      nodes, edges, loading := loadedNodes, loadedEdges, false;
    }

    /** An uploaded file parsed (App.tsx lines 401-406): the new graph
        replaces the old one and the queries and selection are cleared, so
        the status line goes idle. */
    method ReplaceGraph(newNodes: seq<Node>, newEdges: seq<Edge>)
      modifies this
      ensures nodes == newNodes && edges == newEdges && loading == old(loading)
      ensures searchKey == "" && searchLabel == ""
      ensures selectedNode.None? && nodeInfo.None?
      ensures SearchStatus(nodes, CurrentQuery()) == Idle
    {
      nodes, edges := newNodes, newEdges;
      searchKey, searchLabel := "", "";
      selectedNode, nodeInfo := None, None;
    }

    /** Typing in the key box (App.tsx line 418). */
    method EditSearchKey(text: string)
      modifies this
      ensures searchKey == text
      ensures nodes == old(nodes) && edges == old(edges) && loading == old(loading) && searchLabel == old(searchLabel)
      ensures selectedNode == old(selectedNode) && nodeInfo == old(nodeInfo)
    {
      searchKey := text;
    }

    /** Typing in the label box (App.tsx line 425). */
    method EditSearchLabel(text: string)
      modifies this
      ensures searchLabel == text
      ensures nodes == old(nodes) && edges == old(edges) && loading == old(loading) && searchKey == old(searchKey)
      ensures selectedNode == old(selectedNode) && nodeInfo == old(nodeInfo)
    {
      searchLabel := text;
    }

    /** The Reset button (App.tsx lines 429-434): both queries and the
        selection are cleared, so the status line goes idle and the star
        is empty. */
    method Reset()
      modifies this
      ensures searchKey == "" && searchLabel == ""
      ensures selectedNode.None? && nodeInfo.None?
      ensures nodes == old(nodes) && edges == old(edges) && loading == old(loading)
      ensures SearchStatus(nodes, CurrentQuery()) == Idle
    {
      searchKey, searchLabel := "", "";
      selectedNode, nodeInfo := None, None;
    }

    /** The Close button of the details panel (App.tsx line 491). */
    method CloseDetails()
      modifies this
      ensures selectedNode.None? && nodeInfo.None?
      ensures nodes == old(nodes) && edges == old(edges) && loading == old(loading)
      ensures searchKey == old(searchKey) && searchLabel == old(searchLabel)
    {
      selectedNode, nodeInfo := None, None;
    }

    /** A click on the background (App.tsx lines 281-284): the selection
        goes, the queries stay. */
    method ClickStage()
      modifies this
      ensures selectedNode.None? && nodeInfo.None?
      ensures nodes == old(nodes) && edges == old(edges) && loading == old(loading)
      ensures searchKey == old(searchKey) && searchLabel == old(searchLabel)
    {
      selectedNode, nodeInfo := None, None;
    }

    /** A click on the node `key` of the drawn graph (App.tsx lines
        274-280): its record fills both queries (label "" when missing)
        and becomes the selection. The graph only reports its own nodes.
        The code stores `graph.getNodeAttributes(node)` as the details,
        which also carries the style attributes the highlight effect
        wrote; the model stores the node's record only, since the details
        panel that shows them is not modelled. */
    method ClickNode(g: StyledGraph, key: string)
      requires g.Valid() && HasKey(g.nodes, key)
      modifies this
      ensures Lookup(g.nodes, key).Some?
      ensures var n := Lookup(g.nodes, key).value;
        && searchKey == n.key == key && searchLabel == n.labelText
        && selectedNode == Some(key) && nodeInfo == Some(n)
      ensures key != "" ==> IsSet(CurrentQuery())
      ensures nodes == old(nodes) && edges == old(edges) && loading == old(loading)
    {
      var n := Lookup(g.nodes, key).value;
      searchKey, searchLabel := n.key, n.labelText;
      selectedNode, nodeInfo := Some(key), Some(n);
    }

    /** The graph-building effect (App.tsx lines 180-185): nothing while
        loading or while the star is empty, otherwise a new graph holding
        the star's nodes and edges. A `null` result means "no new graph":
        on the early return the code leaves `graphRef` holding whatever
        graph it held before. The graph refuses a repeated key or a
        repeated edge, which the requires exclude. */
    method BuildGraph(place: nat -> Point) returns (g: StyledGraph?)
      requires var star := BuildStar(nodes, edges, CurrentQuery(), place);
        && DistinctKeys(star.nodes)
        && (forall e :: e in star.edges ==> HasKey(star.nodes, e.source) && HasKey(star.nodes, e.target) && e.source != e.target)
        && (forall i, j :: 0 <= i < j < |star.edges| ==> star.edges[i] != star.edges[j])
      ensures var star := BuildStar(nodes, edges, CurrentQuery(), place);
        && (g == null <==> loading || star.nodes == [])
        && (g != null ==> fresh(g) && g.Valid() && g.nodes == star.nodes && g.edges == star.edges)
    {
      var star := BuildStar(nodes, edges, CurrentQuery(), place);
      if loading || |star.nodes| == 0 {
        return null;
      }
      g := new StyledGraph(star.nodes, star.edges);
    }

    /** The highlight effect (App.tsx lines 292-354): nothing while loading
        or before a graph exists; otherwise the graph is restyled around
        the highlight key and, when a query is set, the selection and the
        details follow the match (cleared when nothing matches). Without a
        query the selection stays and is highlighted; it must then be a
        node of the graph, since styling a missing node throws. */
    method HighlightEffect(g: StyledGraph?)
      requires g != null ==> g.Valid()
      requires g != null && !IsSet(CurrentQuery()) && selectedNode.Some? && selectedNode.value != ""
        ==> HasKey(g.nodes, selectedNode.value)
      modifies this, g
      ensures nodes == old(nodes) && edges == old(edges) && loading == old(loading)
      ensures searchKey == old(searchKey) && searchLabel == old(searchLabel)
      ensures loading || g == null ==>
        selectedNode == old(selectedNode) && nodeInfo == old(nodeInfo) && (g != null ==> unchanged(g))
      ensures !loading && g != null ==>
        var hk := HighlightKey(old(g.nodes), CurrentQuery(), old(selectedNode));
        && g.Valid() && g.nodes == old(g.nodes) && g.edges == old(g.edges)
        && (forall k :: k in g.nodeStyle ==> g.nodeStyle[k] == StyleFor(nodes, g.edges, hk, k))
        && g.edgeStyle == EdgeStyles(g.edges, hk)
        && (IsSet(CurrentQuery()) ==>
              selectedNode == hk && nodeInfo == (if hk.Some? then Lookup(nodes, hk.value) else None))
        && (!IsSet(CurrentQuery()) ==> selectedNode == old(selectedNode) && nodeInfo == old(nodeInfo))
    {
      if loading || g == null {
        return;
      }
      var q := CurrentQuery();
      var hk := HighlightKey(g.nodes, q, selectedNode);
      if IsSet(q) {
        if hk.Some? {
          var i := FindMatch(g.nodes, q).value;
          assert HasKey(g.nodes, g.nodes[i].key);
          selectedNode, nodeInfo := hk, Lookup(nodes, hk.value);
        } else {
          selectedNode, nodeInfo := None, None;
        }
      }
      g.Restyle(nodes, hk);
    }
  }

  /** Two edges joining the matched node to the same neighbour repeat that
      neighbour in the star, so the graph build's requires (distinct keys)
      fails: the graph would refuse the second copy. */
  lemma ParallelEdgesRepeatNeighbor(place: nat -> Point)
    ensures var a := Node("a", "", "", None, None, 0.0, 0.0);
      var b := Node("b", "", "", None, None, 0.0, 0.0);
      var star := BuildStar([a, b], [Edge("a", "b"), Edge("b", "a")], Query("a", ""), place);
      && Keys(star.nodes) == ["a", "b", "b"]
      && !DistinctKeys(star.nodes)
  {
    var a := Node("a", "", "", None, None, 0.0, 0.0);
    var b := Node("b", "", "", None, None, 0.0, 0.0);
    var nodes, edges, q := [a, b], [Edge("a", "b"), Edge("b", "a")], Query("a", "");
    ParallelExampleParts(a, b);
    var star := BuildStar(nodes, edges, q, place);
    RepeatedNeighborKeys(star.nodes);
  }

  /** A centre `a` followed by two entries for `b` repeats a key. */
  lemma RepeatedNeighborKeys(ns: seq<Node>)
    requires |ns| == 3 && ns[0].key == "a" && Keys(ns[1..]) == ["b", "b"]
    ensures Keys(ns) == ["a", "b", "b"] && !DistinctKeys(ns)
  {
    assert ns[1].key == ns[1..][0].key;
    assert ns[2].key == ns[1..][1].key;
  }

  /** The pieces of the example above: the query finds `a`, whose two
      edges both lead to `b`, and both entries survive the filter. */
  lemma ParallelExampleParts(a: Node, b: Node)
    requires a == Node("a", "", "", None, None, 0.0, 0.0) && b == Node("b", "", "", None, None, 0.0, 0.0)
    ensures FindMatch([a, b], Query("a", "")) == Some(0)
    ensures NeighborKeys([Edge("a", "b"), Edge("b", "a")], "a") == ["b", "b"]
    ensures KeptKeys([a, b], ["b", "b"]) == ["b", "b"]
  {
    var nodes := [a, b];
    assert Matches(a, Query("a", ""));
    var edges := [Edge("a", "b"), Edge("b", "a")];
    assert edges[1..] == [Edge("b", "a")] && edges[1..][1..] == [];
    assert nodes[1].key == "b";
    assert Kept(nodes, "b");
    assert ["b", "b"][1..] == ["b"];
  }
}
