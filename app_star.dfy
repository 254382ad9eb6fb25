/** The star subgraph of the main view (App.tsx): once a query is set and a
    node matches it, the view shows that node at the origin, one entry per
    edge touching it for the node at the other end (entries whose key names
    no node are dropped), and one edge per such entry. The status line under
    the search boxes reports the same match. */
module AppStar {
  import opened GraphData
  import opened Search

  datatype Star = Star(nodes: seq<Node>, edges: seq<Edge>)

  /** The node as it was loaded, position aside. */
  function Unplaced(n: Node): Node {
    n.(x := 0.0, y := 0.0)
  }

  function Keys(ns: seq<Node>): (r: seq<string>)
    ensures |r| == |ns| && forall i :: 0 <= i < |ns| ==> r[i] == ns[i].key
  {
    if ns == [] then [] else [ns[0].key] + Keys(ns[1..])
  }

  /** A neighbour entry survives `filter(n => n && n.key)` when its key names
      a node and is not empty. */
  predicate Kept(nodes: seq<Node>, k: string) {
    k != "" && HasKey(nodes, k)
  }

  /** The neighbour keys that survive, in order. */
  function KeptKeys(nodes: seq<Node>, keys: seq<string>): (r: seq<string>)
    ensures |r| <= |keys|
    ensures forall k :: k in r <==> k in keys && Kept(nodes, k)
  {
    if keys == [] then []
    else (if Kept(nodes, keys[0]) then [keys[0]] else []) + KeptKeys(nodes, keys[1..])
  }

  /** The filter keeps the surviving keys in order, repeats included. */
  lemma {:induction false} KeptKeysAppend(nodes: seq<Node>, a: seq<string>, b: seq<string>)
    ensures KeptKeys(nodes, a + b) == KeptKeys(nodes, a) + KeptKeys(nodes, b)
  {
    if a != [] {
      assert (a + b)[0] == a[0] && (a + b)[1..] == a[1..] + b;
      KeptKeysAppend(nodes, a[1..], b);
    } else {
      assert a + b == b;
    }
  }

  /** The neighbour entries: the record found for the `i`-th key, moved to
      `place(from + i)` (the ring layout, which is not modelled), with the
      entries the filter drops left out. */
  function NeighborNodes(nodes: seq<Node>, keys: seq<string>, place: nat -> Point, from: nat): (r: seq<Node>)
    ensures |r| <= |keys|
    ensures forall j :: 0 <= j < |r| ==>
      Lookup(nodes, r[j].key).Some? && Unplaced(r[j]) == Unplaced(Lookup(nodes, r[j].key).value)
  {
    if keys == [] then []
    else
      var rest := NeighborNodes(nodes, keys[1..], place, from + 1);
      var found := Lookup(nodes, keys[0]);
      var head := if found.Some? && found.value.key != "" then [found.value.(x := place(from).x, y := place(from).y)] else [];
      head + rest
  }

  /** The entries kept are those of the keys that name a node, in key order. */
  lemma {:induction false} NeighborNodesKeys(nodes: seq<Node>, keys: seq<string>, place: nat -> Point, from: nat)
    ensures Keys(NeighborNodes(nodes, keys, place, from)) == KeptKeys(nodes, keys)
  {
    if keys != [] {
      NeighborNodesKeys(nodes, keys[1..], place, from + 1);
      var rest := NeighborNodes(nodes, keys[1..], place, from + 1);
      var found := Lookup(nodes, keys[0]);
      var head := if found.Some? && found.value.key != "" then [found.value.(x := place(from).x, y := place(from).y)] else [];
      assert NeighborNodes(nodes, keys, place, from) == head + rest;
      assert Keys(head + rest) == Keys(head) + Keys(rest);
      assert found.Some? && found.value.key != "" <==> Kept(nodes, keys[0]);
    }
  }

  /** When every neighbour key names a node, no entry is dropped and the
      `j`-th entry sits at the `j`-th ring position. */
  lemma {:induction false} NeighborNodesKeepPlaces(nodes: seq<Node>, keys: seq<string>, place: nat -> Point, from: nat)
    requires forall k :: k in keys ==> Kept(nodes, k)
    ensures var r := NeighborNodes(nodes, keys, place, from);
      |r| == |keys| && forall j :: 0 <= j < |r| ==> r[j].key == keys[j] && r[j].x == place(from + j).x && r[j].y == place(from + j).y
  {
    if keys != [] {
      NeighborNodesKeepPlaces(nodes, keys[1..], place, from + 1);
      var rest := NeighborNodes(nodes, keys[1..], place, from + 1);
      var found := Lookup(nodes, keys[0]);
      assert keys[0] in keys;
      assert found.Some? && found.value.key == keys[0] && keys[0] != "";
      var head := found.value.(x := place(from).x, y := place(from).y);
      var r := NeighborNodes(nodes, keys, place, from);
      assert r == [head] + rest;
      forall j | 0 <= j < |r|
        ensures r[j].key == keys[j] && r[j].x == place(from + j).x && r[j].y == place(from + j).y
      {
        if j == 0 {
          assert r[0] == head;
        } else {
          assert r[j] == rest[j - 1];
          assert keys[1..][j - 1] == keys[j];
          var i: nat := j - 1;
          assert i < |rest|;
          assert rest[i].x == place(from + 1 + i).x && rest[i].y == place(from + 1 + i).y;
          assert from + 1 + i == from + j;
        }
      }
    }
  }

  /** `connected.find(e => e joins centre and n)`. */
  function FirstLink(connected: seq<Edge>, centre: string, n: string): (r: Option<Edge>)
    ensures r.None? <==> !Adjacent(connected, centre, n)
    ensures r.Some? ==> r.value in connected && Links(r.value, centre, n)
    ensures r.Some? ==> exists i ::
      (0 <= i < |connected| && connected[i] == r.value && forall j :: 0 <= j < i ==> !Links(connected[j], centre, n))
  {
    if connected == [] then None
    else if Links(connected[0], centre, n) then Some(connected[0])
    else
      var rest := FirstLink(connected[1..], centre, n);
      assert Adjacent(connected, centre, n) ==> Adjacent(connected[1..], centre, n) by {
        if Adjacent(connected, centre, n) {
          var i :| 0 <= i < |connected| && Links(connected[i], centre, n);
          assert Links(connected[1..][i - 1], centre, n);
        }
      }
      assert Adjacent(connected[1..], centre, n) ==> Adjacent(connected, centre, n) by {
        if Adjacent(connected[1..], centre, n) {
          var i :| 0 <= i < |connected[1..]| && Links(connected[1..][i], centre, n);
          assert Links(connected[i + 1], centre, n);
        }
      }
      assert rest.Some? ==> exists i ::
        (0 <= i < |connected| && connected[i] == rest.value && forall j :: 0 <= j < i ==> !Links(connected[j], centre, n)) by {
        if rest.Some? {
          var i :| 0 <= i < |connected[1..]| && connected[1..][i] == rest.value
            && forall j :: 0 <= j < i ==> !Links(connected[1..][j], centre, n);
          assert connected[i + 1] == rest.value;
          forall j | 0 <= j < i + 1 ensures !Links(connected[j], centre, n) {
            if j > 0 { assert connected[j] == connected[1..][j - 1]; }
          }
        }
      }
      rest
  }

  /** `keys.map(n => connected.find(...)).filter(Boolean)`. */
  function StarEdges(connected: seq<Edge>, centre: string, keys: seq<string>): (r: seq<Edge>)
    ensures |r| <= |keys|
    ensures forall e :: e in r ==> e in connected && Touches(e, centre)
  {
    if keys == [] then []
    else
      var found := FirstLink(connected, centre, keys[0]);
      (if found.Some? then [found.value] else []) + StarEdges(connected, centre, keys[1..])
  }

  /** Searching the edges touching the centre finds the same edge as
      searching all edges: every edge joining the centre touches it. */
  lemma {:induction false} FirstLinkAmongIncident(edges: seq<Edge>, centre: string, n: string)
    ensures FirstLink(Incident(edges, centre), centre, n) == FirstLink(edges, centre, n)
  {
    if edges != [] {
      FirstLinkAmongIncident(edges[1..], centre, n);
      var e := edges[0];
      var tail := Incident(edges[1..], centre);
      if Touches(e, centre) {
        assert Incident(edges, centre) == [e] + tail;
        assert ([e] + tail)[0] == e && ([e] + tail)[1..] == tail;
        if !Links(e, centre, n) {
          assert FirstLink([e] + tail, centre, n) == FirstLink(tail, centre, n);
          assert FirstLink(edges, centre, n) == FirstLink(edges[1..], centre, n);
        }
      } else {
        assert Incident(edges, centre) == tail;
        assert !Links(e, centre, n);
        assert FirstLink(edges, centre, n) == FirstLink(edges[1..], centre, n);
      }
    }
  }

  /** When every key is joined to the centre, every lookup succeeds and the
      `i`-th star edge is the first edge joining the centre to the `i`-th key. */
  lemma {:induction false} StarEdgesAllFound(connected: seq<Edge>, centre: string, keys: seq<string>)
    requires forall n :: n in keys ==> Adjacent(connected, centre, n)
    ensures |StarEdges(connected, centre, keys)| == |keys|
    ensures forall i :: 0 <= i < |keys| ==> FirstLink(connected, centre, keys[i]) == Some(StarEdges(connected, centre, keys)[i])
  {
    if keys != [] {
      StarEdgesAllFound(connected, centre, keys[1..]);
    }
  }

  /** Every neighbour key is joined to the centre by one of the edges
      touching it. */
  lemma NeighborsJoinedAmongIncident(edges: seq<Edge>, centre: string)
    ensures forall n :: n in NeighborKeys(edges, centre) ==> Adjacent(Incident(edges, centre), centre, n)
  {
    var connected := Incident(edges, centre);
    forall n | n in NeighborKeys(edges, centre)
      ensures Adjacent(connected, centre, n)
    {
      AdjacentIffNeighbor(edges, centre, n);
      var i :| 0 <= i < |edges| && Links(edges[i], centre, n);
      assert edges[i] in connected;
      var j :| 0 <= j < |connected| && connected[j] == edges[i];
      assert Links(connected[j], centre, n);
    }
  }

  /** The star has exactly one edge per neighbour key (the filter drops
      nothing); the `i`-th joins the centre and the `i`-th neighbour key and
      is the first input edge that does, so parallel edges repeat it. */
  lemma OneStarEdgePerNeighborKey(edges: seq<Edge>, centre: string)
    ensures var keys := NeighborKeys(edges, centre);
      var r := StarEdges(Incident(edges, centre), centre, keys);
      |r| == |keys|
      && forall i :: 0 <= i < |keys| ==> Links(r[i], centre, keys[i]) && FirstLink(edges, centre, keys[i]) == Some(r[i])
  {
    var keys := NeighborKeys(edges, centre);
    var connected := Incident(edges, centre);
    NeighborsJoinedAmongIncident(edges, centre);
    StarEdgesAllFound(connected, centre, keys);
    forall i | 0 <= i < |keys|
      ensures FirstLink(edges, centre, keys[i]) == FirstLink(connected, centre, keys[i])
    {
      FirstLinkAmongIncident(edges, centre, keys[i]);
    }
  }

  /** The star-building effect (App.tsx lines 117-170): the centre at the
      origin followed by the looked-up records of its neighbour keys on the
      ring, and for each neighbour key the first input edge joining it to
      the centre, as stored (its direction kept). */
  function BuildStar(nodes: seq<Node>, edges: seq<Edge>, q: Query, place: nat -> Point): (s: Star)
    ensures !IsSet(q) || FindMatch(nodes, q).None? ==> s == Star([], [])
    ensures IsSet(q) && FindMatch(nodes, q).Some? ==>
      var centre := nodes[FindMatch(nodes, q).value];
      var keys := NeighborKeys(edges, centre.key);
      && |s.nodes| == 1 + |KeptKeys(nodes, keys)|
      && s.nodes[0] == centre.(x := 0.0, y := 0.0)
      && s.nodes[1..] == NeighborNodes(nodes, keys, place, 0)
      && Keys(s.nodes[1..]) == KeptKeys(nodes, keys)
      && |s.edges| == |keys|
      && forall i :: 0 <= i < |keys| ==>
           Links(s.edges[i], centre.key, keys[i]) && FirstLink(edges, centre.key, keys[i]) == Some(s.edges[i])
  {
    if !IsSet(q) then Star([], [])
    else match FindMatch(nodes, q)
      case None => Star([], [])
      case Some(i) =>
        var centre := nodes[i];
        var keys := NeighborKeys(edges, centre.key);
        var neighbours := NeighborNodes(nodes, keys, place, 0);
        OneStarEdgePerNeighborKey(edges, centre.key);
        NeighborNodesKeys(nodes, keys, place, 0);
        assert ([centre.(x := 0.0, y := 0.0)] + neighbours)[1..] == neighbours;
        Star([centre.(x := 0.0, y := 0.0)] + neighbours, StarEdges(Incident(edges, centre.key), centre.key, keys))
  }

  /** What the status line under the search boxes says. */
  datatype Status = Idle | Matched(node: Node) | NoMatch

  function SearchStatus(nodes: seq<Node>, q: Query): (r: Status)
    ensures r == Idle <==> !IsSet(q)
    ensures r == NoMatch <==> IsSet(q) && forall j :: 0 <= j < |nodes| ==> !Matches(nodes[j], q)
    ensures r.Matched? ==> FindMatch(nodes, q).Some? && r.node == nodes[FindMatch(nodes, q).value]
  {
    if !IsSet(q) then Idle
    else match FindMatch(nodes, q)
      case Some(i) => Matched(nodes[i])
      case None => NoMatch
  }

  /** The status line and the star agree: "Matched" exactly when the star is
      non-empty, and then the star is centred on the reported node. */
  lemma StatusAgreesWithStar(nodes: seq<Node>, edges: seq<Edge>, q: Query, place: nat -> Point)
    ensures SearchStatus(nodes, q).Matched? <==> BuildStar(nodes, edges, q, place).nodes != []
    ensures SearchStatus(nodes, q).Matched? ==>
      Unplaced(BuildStar(nodes, edges, q, place).nodes[0]) == Unplaced(SearchStatus(nodes, q).node)
    ensures SearchStatus(nodes, q) == Idle <==> !IsSet(q)
  {
  }
}
