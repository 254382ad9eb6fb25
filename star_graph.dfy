/** The standalone star view (StarGraph.tsx): it centres on the first node
    matching the queries, or on the first node of the document when there
    is no query or no match, draws one node element per neighbour key and
    one edge element from the centre to each, and reacts to taps and its
    Reset button. The double-tap handler is modelled as written, although
    the code never attaches it: its effect runs once, on the loading
    render, when no Cytoscape instance exists yet. */
module StarGraph {
  import opened GraphData
  import opened Search
  import opened AppStar

  const CentreColor: string := "#1976d2"
  const NeighborColor: string := "#388e3c"
  const DefaultSize: real := 1.0

  /** The `data` of a node element: the node's record with `id` set to its
      key and `size` and `color` filled in with `??`. */
  datatype NodeData = NodeData(record: Node, id: string, size: real, color: string)

  datatype Element =
    | NodeElement(data: NodeData, position: Point)
    | EdgeElement(id: string, source: string, target: string)

  /** The centre: `nodes[0]`, replaced by the first match when a query is
      set and something matches. */
  function Centre(nodes: seq<Node>, q: Query): (c: Node)
    requires |nodes| > 0
    ensures c in nodes
    ensures IsSet(q) && FindMatch(nodes, q).Some? ==> Matches(c, q)
  {
    if IsSet(q) && FindMatch(nodes, q).Some? then nodes[FindMatch(nodes, q).value] else nodes[0]
  }

  /** With a query that some node passes, the centre is the first node in
      list order that passes it. */
  lemma CentreIsFirstMatch(nodes: seq<Node>, q: Query)
    requires |nodes| > 0
    requires exists i :: 0 <= i < |nodes| && Matches(nodes[i], q)
    ensures exists i ::
      (0 <= i < |nodes| && Centre(nodes, q) == nodes[i] && Matches(nodes[i], q)
       && forall j :: 0 <= j < i ==> !Matches(nodes[j], q))
  {
    var i := FindMatch(nodes, q).value;
    assert Centre(nodes, q) == nodes[i];
  }

  /** With no query, or a query that no node passes, the view centres on
      the first node; the main view shows no star in either case. */
  lemma NoMatchCentresOnFirst(nodes: seq<Node>, edges: seq<Edge>, q: Query, place: nat -> Point)
    requires |nodes| > 0 && forall j :: 0 <= j < |nodes| ==> !Matches(nodes[j], q)
    ensures Centre(nodes, q) == nodes[0]
    ensures BuildStar(nodes, edges, q, place).nodes == []
  {
  }

  /** When the queries match, the standalone view and the main view pick
      the same centre. */
  lemma CentreAgreesWithMainView(nodes: seq<Node>, edges: seq<Edge>, q: Query, place: nat -> Point)
    requires |nodes| > 0 && IsSet(q) && FindMatch(nodes, q).Some?
    ensures Unplaced(BuildStar(nodes, edges, q, place).nodes[0]) == Unplaced(Centre(nodes, q))
  {
  }

  /** The node element of a record, with the view's defaults. */
  function NodeElementOf(n: Node, defaultColor: string, position: Point): (e: Element)
    ensures e.NodeElement? && e.data.record == n && e.data.id == n.key && e.position == position
    ensures n.size.None? ==> e.data.size == DefaultSize
    ensures n.size.Some? ==> e.data.size == n.size.value
    ensures n.color.None? ==> e.data.color == defaultColor
    ensures n.color.Some? ==> e.data.color == n.color.value
  {
    NodeElement(NodeData(n, n.key, OrElse(n.size, DefaultSize), OrElse(n.color, defaultColor)), position)
  }

  /** `??` keeps an empty colour or a zero size, where the main view's `||`
      falls back to its default. */
  lemma DefaultsKeepEmptyValues(n: Node, position: Point)
    requires n.color == Some("") && n.size == Some(0.0)
    ensures NodeElementOf(n, NeighborColor, position).data.color == ""
    ensures NodeElementOf(n, NeighborColor, position).data.size == 0.0
    ensures TextOr(n.color, NeighborColor) == NeighborColor && NumberOr(n.size, DefaultSize) == DefaultSize
  {
  }

  /** The neighbour node elements: for each key, the first node with that
      key, placed at `place(i)` (the ring layout, which is not modelled). */
  function NeighborElements(nodes: seq<Node>, keys: seq<string>, place: nat -> Point): (r: seq<Element>)
    requires forall k :: k in keys ==> HasKey(nodes, k)
    ensures |r| == |keys|
    ensures forall i :: 0 <= i < |keys| ==>
      r[i] == NodeElementOf(Lookup(nodes, keys[i]).value, NeighborColor, place(i))
  {
    seq(|keys|, i requires 0 <= i < |keys| && keys[i] in keys =>
      NodeElementOf(Lookup(nodes, keys[i]).value, NeighborColor, place(i)))
  }

  /** One edge element per neighbour key, from the centre to the key,
      whichever way the input edge points. */
  function EdgeElements(centre: string, keys: seq<string>): (r: seq<Element>)
    ensures |r| == |keys|
    ensures forall i :: 0 <= i < |keys| ==> r[i] == EdgeElement(centre + "-" + keys[i], centre, keys[i])
  {
    seq(|keys|, i requires 0 <= i < |keys| => EdgeElement(centre + "-" + keys[i], centre, keys[i]))
  }

  /** Every neighbour key of the centre names a node: the element builder
      reads the key of the node it looks up. */
  predicate NeighborsExist(nodes: seq<Node>, edges: seq<Edge>, q: Query)
    requires |nodes| > 0
  {
    forall k :: k in NeighborKeys(edges, Centre(nodes, q).key) ==> HasKey(nodes, k)
  }

  /** Where the parts of `[centre] + middle + tail` sit. */
  lemma Concatenated(centre: Element, middle: seq<Element>, tail: seq<Element>)
    ensures var els := [centre] + middle + tail;
      && |els| == 1 + |middle| + |tail| && els[0] == centre
      && els[1..1 + |middle|] == middle && els[1 + |middle|..] == tail
  {
    var els := [centre] + middle + tail;
    assert els[1..] == middle + tail;
  }

  /** The element list of the load effect (StarGraph.tsx lines 84-114):
      the centre at the origin, its neighbour node elements in edge order,
      then the edge elements. */
  function BuildElements(nodes: seq<Node>, edges: seq<Edge>, q: Query, place: nat -> Point): (els: seq<Element>)
    requires |nodes| > 0 && NeighborsExist(nodes, edges, q)
    ensures var c := Centre(nodes, q);
      var keys := NeighborKeys(edges, c.key);
      && |els| == 1 + 2 * |keys|
      && els[0] == NodeElementOf(c, CentreColor, Point(0.0, 0.0))
      && els[1..1 + |keys|] == NeighborElements(nodes, keys, place)
      && els[1 + |keys|..] == EdgeElements(c.key, keys)
  {
    var c := Centre(nodes, q);
    var keys := NeighborKeys(edges, c.key);
    var ns := NeighborElements(nodes, keys, place);
    var es := EdgeElements(c.key, keys);
    Concatenated(NodeElementOf(c, CentreColor, Point(0.0, 0.0)), ns, es);
    [NodeElementOf(c, CentreColor, Point(0.0, 0.0))] + ns + es
  }

  /** The shape of an element list made of a centre, node elements for
      `keys` and edge elements from `ck` to `keys`. */
  lemma {:induction false} PartsShape(nodes: seq<Node>, edges: seq<Edge>, ck: string, keys: seq<string>, place: nat -> Point, els: seq<Element>)
    requires forall k :: k in keys ==> Adjacent(edges, ck, k) && HasKey(nodes, k)
    requires |els| == 1 + 2 * |keys| && els[0].NodeElement?
    requires els[1..1 + |keys|] == NeighborElements(nodes, keys, place)
    requires els[1 + |keys|..] == EdgeElements(ck, keys)
    ensures forall j :: 0 <= j < |els| ==> (els[j].NodeElement? <==> j <= |keys|)
    ensures forall i :: 0 <= i < |keys| ==> els[1 + i].NodeElement? && els[1 + i].data.id == keys[i]
    ensures forall j :: |keys| < j < |els| ==>
      els[j].EdgeElement? && els[j].source == ck && Adjacent(edges, ck, els[j].target) && HasKey(nodes, els[j].target)
  {
    var ns := els[1..1 + |keys|];
    var es := els[1 + |keys|..];
    forall j | 0 <= j < |els|
      ensures els[j].NodeElement? <==> j <= |keys|
    {
      if 0 < j <= |keys| {
        assert els[j] == ns[j - 1];
      } else if j > |keys| {
        assert els[j] == es[j - 1 - |keys|];
      }
    }
    forall i | 0 <= i < |keys|
      ensures els[1 + i].NodeElement? && els[1 + i].data.id == keys[i]
    {
      assert els[1 + i] == ns[i];
      assert keys[i] in keys;
    }
    forall j | |keys| < j < |els|
      ensures els[j].EdgeElement? && els[j].source == ck && Adjacent(edges, ck, els[j].target) && HasKey(nodes, els[j].target)
    {
      var i := j - 1 - |keys|;
      assert els[j] == es[i];
      assert keys[i] in keys;
    }
  }

  /** Node elements come first and edge elements after them; the `i`-th
      node element after the centre carries the `i`-th neighbour key; each
      edge element leaves the centre and ends at a node joined to the
      centre by an input edge; and there is one edge element per input
      edge touching the centre. */
  lemma ElementsShape(nodes: seq<Node>, edges: seq<Edge>, q: Query, place: nat -> Point)
    requires |nodes| > 0 && NeighborsExist(nodes, edges, q)
    ensures var els := BuildElements(nodes, edges, q, place);
      var c := Centre(nodes, q);
      var keys := NeighborKeys(edges, c.key);
      && (forall j :: 0 <= j < |els| ==> (els[j].NodeElement? <==> j <= |keys|))
      && (forall i :: 0 <= i < |keys| ==> els[1 + i].NodeElement? && els[1 + i].data.id == keys[i])
      && (forall j :: |keys| < j < |els| ==>
            els[j].EdgeElement? && els[j].source == c.key && Adjacent(edges, c.key, els[j].target) && HasKey(nodes, els[j].target))
      && |els| - 1 - |keys| == |Incident(edges, c.key)|
  {
    var c := Centre(nodes, q);
    var els := BuildElements(nodes, edges, q, place);
    NeighborsShape(nodes, edges, c.key, NeighborKeys(edges, c.key), place, els);
  }

  /** The shape of an element list built around the centre key `ck` from
      its neighbour keys. */
  lemma NeighborsShape(nodes: seq<Node>, edges: seq<Edge>, ck: string, keys: seq<string>, place: nat -> Point, els: seq<Element>)
    requires keys == NeighborKeys(edges, ck) && forall k :: k in keys ==> HasKey(nodes, k)
    requires |els| == 1 + 2 * |keys| && els[0].NodeElement?
    requires els[1..1 + |keys|] == NeighborElements(nodes, keys, place)
    requires els[1 + |keys|..] == EdgeElements(ck, keys)
    ensures forall j :: 0 <= j < |els| ==> (els[j].NodeElement? <==> j <= |keys|)
    ensures forall i :: 0 <= i < |keys| ==> els[1 + i].NodeElement? && els[1 + i].data.id == keys[i]
    ensures forall j :: |keys| < j < |els| ==>
      els[j].EdgeElement? && els[j].source == ck && Adjacent(edges, ck, els[j].target) && HasKey(nodes, els[j].target)
    ensures |els| - 1 - |keys| == |Incident(edges, ck)|
  {
    NeighborsAdjacent(edges, ck);
    PartsShape(nodes, edges, ck, keys, place, els);
  }

  /** When every neighbour key names a node with a non-empty key, the
      standalone view draws the same nodes as the main view's star (same
      records, same order) and one edge element per star edge, joining the
      same two nodes. */
  lemma AgreesWithMainViewStar(nodes: seq<Node>, edges: seq<Edge>, q: Query, place: nat -> Point, ring: nat -> Point)
    requires |nodes| > 0 && IsSet(q) && FindMatch(nodes, q).Some?
    requires forall k :: k in NeighborKeys(edges, Centre(nodes, q).key) ==> Kept(nodes, k)
    ensures NeighborsExist(nodes, edges, q)
    ensures var els := BuildElements(nodes, edges, q, ring);
      var star := BuildStar(nodes, edges, q, place);
      && |star.nodes| + |star.edges| == |els|
      && (forall j :: 0 <= j < |star.nodes| ==> els[j].NodeElement? && Unplaced(els[j].data.record) == Unplaced(star.nodes[j]))
      && (forall i :: 0 <= i < |star.edges| ==>
            Links(star.edges[i], els[|star.nodes| + i].source, els[|star.nodes| + i].target))
  {
    var c := Centre(nodes, q);
    var keys := NeighborKeys(edges, c.key);
    forall k | k in keys
      ensures k != "" && HasKey(nodes, k)
    {
      assert Kept(nodes, k);
    }
    assert NeighborsExist(nodes, edges, q);
    var star := BuildStar(nodes, edges, q, place);
    var els := BuildElements(nodes, edges, q, ring);
    assert c == nodes[FindMatch(nodes, q).value];
    StarNodesMatchElements(nodes, keys, place, ring, c, els);
    assert star.nodes == [c.(x := 0.0, y := 0.0)] + NeighborNodes(nodes, keys, place, 0);
    StarEdgesAgree(nodes, edges, q, place, ring);
  }

  /** The edge part of the agreement, for the whole load. */
  lemma StarEdgesAgree(nodes: seq<Node>, edges: seq<Edge>, q: Query, place: nat -> Point, ring: nat -> Point)
    requires |nodes| > 0 && IsSet(q) && FindMatch(nodes, q).Some? && NeighborsExist(nodes, edges, q)
    requires |BuildStar(nodes, edges, q, place).nodes| == 1 + |NeighborKeys(edges, Centre(nodes, q).key)|
    ensures var els := BuildElements(nodes, edges, q, ring);
      var star := BuildStar(nodes, edges, q, place);
      forall i :: 0 <= i < |star.edges| ==>
        Links(star.edges[i], els[|star.nodes| + i].source, els[|star.nodes| + i].target)
  {
    var c := Centre(nodes, q);
    var keys := NeighborKeys(edges, c.key);
    var star := BuildStar(nodes, edges, q, place);
    var els := BuildElements(nodes, edges, q, ring);
    assert c == nodes[FindMatch(nodes, q).value];
    StarEdgesMatchElements(c.key, keys, star.edges, els, |star.nodes|);
  }

  /** The edge part of the agreement: the `i`-th star edge joins the two
      ends of the `i`-th edge element. */
  lemma StarEdgesMatchElements(ck: string, keys: seq<string>, es: seq<Edge>, els: seq<Element>, base: nat)
    requires base == 1 + |keys|
    requires |els| == 1 + 2 * |keys| && els[base..] == EdgeElements(ck, keys)
    requires |es| == |keys| && forall i :: 0 <= i < |keys| ==> Links(es[i], ck, keys[i])
    ensures forall i :: 0 <= i < |es| ==> Links(es[i], els[base + i].source, els[base + i].target)
  {
    forall i | 0 <= i < |es|
      ensures Links(es[i], els[base + i].source, els[base + i].target)
    {
      assert els[base + i] == els[base..][i];
    }
  }

  /** The node part of the agreement: the star's nodes, built from the
      centre and `keys`, and the node elements built from the same keys
      hold the same records in the same order. */
  lemma StarNodesMatchElements(nodes: seq<Node>, keys: seq<string>, place: nat -> Point, ring: nat -> Point, c: Node, els: seq<Element>)
    requires forall k :: k in keys ==> k != "" && HasKey(nodes, k)
    requires |els| >= 1 + |keys| && els[0] == NodeElementOf(c, CentreColor, Point(0.0, 0.0))
    requires els[1..1 + |keys|] == NeighborElements(nodes, keys, ring)
    ensures var sn := [c.(x := 0.0, y := 0.0)] + NeighborNodes(nodes, keys, place, 0);
      |sn| == 1 + |keys|
      && forall j :: 0 <= j < |sn| ==> els[j].NodeElement? && Unplaced(els[j].data.record) == Unplaced(sn[j])
  {
    NeighborNodesKeepPlaces(nodes, keys, place, 0);
    var neighbours := NeighborNodes(nodes, keys, place, 0);
    var sn := [c.(x := 0.0, y := 0.0)] + neighbours;
    forall j | 0 <= j < |sn|
      ensures els[j].NodeElement? && Unplaced(els[j].data.record) == Unplaced(sn[j])
    {
      if j > 0 {
        var i := j - 1;
        assert sn[j] == neighbours[i];
        assert els[j] == els[1..1 + |keys|][i];
        assert keys[i] in keys;
      }
    }
  }

  /** What a tap or a double-tap landed on: a node, or anything else (the
      background or an edge), which the handlers treat alike. */
  datatype Target = NodeTarget(data: NodeData) | Background

  /** The details shown for a tapped node: its element data (the record
      with the filled-in size and colour). */
  function Shown(d: NodeData): Node {
    d.record.(size := Some(d.size), color := Some(d.color))
  }

  /** The component's state. */
  class StarView {
    var elements: seq<Element>
    var selected: Option<string>
    var info: Option<Node>
    var loading: bool
    var searchKey: string
    var searchLabel: string
    var centerNodeKey: Option<string>

    function CurrentQuery(): Query
      reads this
    {
      Query(searchKey, searchLabel)
    }

    /** The initial state (StarGraph.tsx lines 58-65). */
    constructor ()
      ensures elements == [] && selected.None? && info.None? && loading
      ensures searchKey == "" && searchLabel == "" && centerNodeKey.None?
    {
      elements, selected, info, loading := [], None, None, true;
      searchKey, searchLabel, centerNodeKey := "", "", None;
    }

    /** The load effect (StarGraph.tsx lines 68-118) once the document has
        arrived: the elements are built around the centre, which becomes
        the selection, the details and the centre key. `q` is the pair of
        queries the effect captured when it started, which need not be the
        current one: nothing cancels an earlier load, so a load that
        resolves late installs the star of the queries it started with. The
        code reads `nodes[0]` and the key of every neighbour's node, so the
        document must be non-empty and every neighbour key must name a
        node. */
    method LoadAndBuild(nodes: seq<Node>, edges: seq<Edge>, place: nat -> Point, q: Query)
      requires |nodes| > 0 && NeighborsExist(nodes, edges, q)
      modifies this
      ensures var c := Centre(nodes, q);
        && centerNodeKey == Some(c.key) && selected == Some(c.key) && info == Some(c)
        && elements == BuildElements(nodes, edges, q, place)
        && !loading
      ensures searchKey == old(searchKey) && searchLabel == old(searchLabel)
    {
      var centre := nodes[0];
      if q.key != "" || q.labelText != "" {
        var found := FindMatch(nodes, q);
        if found.Some? {
          centre := nodes[found.value];
        }
      }
      centerNodeKey := Some(centre.key);
      var neighbors := NeighborKeys(edges, centre.key);
      var cyNodes := [NodeElementOf(centre, CentreColor, Point(0.0, 0.0))] + NeighborElements(nodes, neighbors, place);
      var cyEdges := EdgeElements(centre.key, neighbors);
      elements := cyNodes + cyEdges;
      loading := false;
      selected := Some(centre.key);
      info := Some(centre);
    }

    /** A tap (StarGraph.tsx lines 153-163): on a node it becomes the
        selection, the details and the centre key; elsewhere, on the
        background or on an edge (both `Background`), the selection and
        details are cleared and the centre key stays. */
    method Tap(t: Target)
      modifies this
      ensures t.NodeTarget? ==>
        selected == Some(t.data.id) && info == Some(Shown(t.data)) && centerNodeKey == Some(t.data.id)
      ensures t.Background? ==> selected.None? && info.None? && centerNodeKey == old(centerNodeKey)
      ensures elements == old(elements) && loading == old(loading)
      ensures searchKey == old(searchKey) && searchLabel == old(searchLabel)
    {
      if t.NodeTarget? {
        selected := Some(t.data.id);
        info := Some(Shown(t.data));
        centerNodeKey := Some(t.data.id);
      } else {
        selected := None;
        info := None;
      }
    }

    /** The double-tap handler (StarGraph.tsx lines 137-145): on a node its
        key and label fill the query boxes (label "" when missing) and its
        key becomes the centre key; elsewhere nothing happens. The effect
        that would register it (lines 134-151) never does so. */
    method DoubleTap(t: Target)
      modifies this
      ensures t.NodeTarget? ==>
        searchKey == t.data.record.key && searchLabel == t.data.record.labelText
        && centerNodeKey == Some(t.data.record.key)
      ensures t.Background? ==>
        searchKey == old(searchKey) && searchLabel == old(searchLabel) && centerNodeKey == old(centerNodeKey)
      ensures elements == old(elements) && loading == old(loading)
      ensures selected == old(selected) && info == old(info)
    {
      if t.NodeTarget? {
        var data := t.data;
        searchKey := data.record.key;
        searchLabel := data.record.labelText;
        centerNodeKey := Some(data.record.key);
      }
    }

    /** The Reset button (StarGraph.tsx line 186): both queries cleared,
        so the next load centres on the first node again. */
    method Reset()
      modifies this
      ensures searchKey == "" && searchLabel == "" && !IsSet(CurrentQuery())
      ensures elements == old(elements) && loading == old(loading)
      ensures selected == old(selected) && info == old(info) && centerNodeKey == old(centerNodeKey)
    {
      searchKey, searchLabel := "", "";
    }

    /** Typing in the key box (StarGraph.tsx line 176). */
    method EditSearchKey(text: string)
      modifies this
      ensures searchKey == text && searchLabel == old(searchLabel)
      ensures elements == old(elements) && loading == old(loading)
      ensures selected == old(selected) && info == old(info) && centerNodeKey == old(centerNodeKey)
    {
      searchKey := text;
    }

    /** Typing in the label box (StarGraph.tsx line 183). */
    method EditSearchLabel(text: string)
      modifies this
      ensures searchLabel == text && searchKey == old(searchKey)
      ensures elements == old(elements) && loading == old(loading)
      ensures selected == old(selected) && info == old(info) && centerNodeKey == old(centerNodeKey)
    {
      searchLabel := text;
    }
  }

  /** Double-tapping a node element of the `i`-th node re-centres the next
      load on that node, provided its key is not "" and no earlier node has
      the same key up to case: its key and label find it first. */
  lemma DoubleTapRecentres(nodes: seq<Node>, i: nat)
    requires i < |nodes| && nodes[i].key != ""
    requires forall j :: 0 <= j < i ==> Text.Lower(nodes[j].key) != Text.Lower(nodes[i].key)
    ensures Centre(nodes, Query(nodes[i].key, nodes[i].labelText)) == nodes[i]
  {
    SelfQueryFindsNode(nodes, i);
  }
}
