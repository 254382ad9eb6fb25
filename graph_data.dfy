/** The graph document as the viewer holds it after loading: an ordered list
    of nodes and an ordered list of edges, plus the lookups both views share
    (find a node by key, the edges touching a key, the keys at their other
    ends). */
module GraphData {

  datatype Option<T> = None | Some(value: T)

  /** One entry of the document's `nodes` list. `labelText` is the node's
      label, "" when it has none (the code treats the two alike); `color`
      and `size` stay optional because the two views default them
      differently. `x` and `y` are the
      position the layout gave the node. */
  datatype Node = Node(
    key: string,
    labelText: string,
    description: string,
    color: Option<string>,
    size: Option<real>,
    x: real,
    y: real)

  /** One entry of the document's `edges` list. */
  datatype Edge = Edge(source: string, target: string)

  datatype Point = Point(x: real, y: real)

  /** JavaScript's `o ?? d`: only a missing value is replaced. */
  function OrElse<T>(o: Option<T>, d: T): (r: T)
    ensures o.Some? ==> r == o.value
    ensures o.None? ==> r == d
  {
    if o.Some? then o.value else d
  }

  /** JavaScript's `o || d` on a string: "" counts as missing. */
  function TextOr(o: Option<string>, d: string): (r: string)
    ensures o.Some? && o.value != "" ==> r == o.value
    ensures !(o.Some? && o.value != "") ==> r == d
  {
    if o.Some? && o.value != "" then o.value else d
  }

  /** JavaScript's `o || d` on a number: 0 counts as missing. */
  function NumberOr(o: Option<real>, d: real): (r: real)
    ensures o.Some? && o.value != 0.0 ==> r == o.value
    ensures !(o.Some? && o.value != 0.0) ==> r == d
  {
    if o.Some? && o.value != 0.0 then o.value else d
  }

  predicate HasKey(nodes: seq<Node>, k: string) {
    exists i | 0 <= i < |nodes| :: nodes[i].key == k
  }

  /** `nodes.find(n => n.key === k)`: the first node with key `k`. */
  function Lookup(nodes: seq<Node>, k: string): (r: Option<Node>)
    ensures r.Some? <==> HasKey(nodes, k)
    ensures r.Some? ==> r.value.key == k && r.value in nodes
    ensures r.Some? ==> exists i :: 0 <= i < |nodes| && nodes[i] == r.value && forall j :: 0 <= j < i ==> nodes[j].key != k
  {
    if nodes == [] then None
    else if nodes[0].key == k then Some(nodes[0])
    else
      var rest := Lookup(nodes[1..], k);
      assert HasKey(nodes, k) ==> HasKey(nodes[1..], k) by {
        if HasKey(nodes, k) {
          var i :| 0 <= i < |nodes| && nodes[i].key == k;
          assert nodes[1..][i - 1].key == k;
        }
      }
      assert rest.Some? ==> exists i :: 0 <= i < |nodes| && nodes[i] == rest.value && forall j :: 0 <= j < i ==> nodes[j].key != k by {
        if rest.Some? {
          var i :| 0 <= i < |nodes[1..]| && nodes[1..][i] == rest.value && forall j :: 0 <= j < i ==> nodes[1..][j].key != k;
          assert nodes[i + 1] == rest.value;
          forall j | 0 <= j < i + 1 ensures nodes[j].key != k {
            if j > 0 { assert nodes[j] == nodes[1..][j - 1]; }
          }
        }
      }
      rest
  }

  predicate Touches(e: Edge, k: string) {
    e.source == k || e.target == k
  }

  /** The endpoint of `e` that is not `k`, as in `e.source === k ? e.target : e.source`. */
  function Opposite(e: Edge, k: string): string {
    if e.source == k then e.target else e.source
  }

  /** `e` joins `k` and `n`, in either direction. */
  predicate Links(e: Edge, k: string, n: string) {
    (e.source == k && e.target == n) || (e.target == k && e.source == n)
  }

  predicate Adjacent(edges: seq<Edge>, k: string, n: string) {
    exists i | 0 <= i < |edges| :: Links(edges[i], k, n)
  }

  /** `edges.filter(e => e.source === k || e.target === k)`. */
  function Incident(edges: seq<Edge>, k: string): (r: seq<Edge>)
    ensures |r| <= |edges|
    ensures forall e :: e in r <==> e in edges && Touches(e, k)
  {
    if edges == [] then []
    else (if Touches(edges[0], k) then [edges[0]] else []) + Incident(edges[1..], k)
  }

  /** The neighbour keys of `k`: the other endpoint of every edge touching
      `k`, in edge order, repeats kept (the filter above followed by
      `.map(e => e.source === k ? e.target : e.source)`). */
  function NeighborKeys(edges: seq<Edge>, k: string): (r: seq<string>)
    ensures |r| == |Incident(edges, k)|
    ensures forall i :: 0 <= i < |r| ==> Links(Incident(edges, k)[i], k, r[i])
  {
    if edges == [] then []
    else (if Touches(edges[0], k) then [Opposite(edges[0], k)] else []) + NeighborKeys(edges[1..], k)
  }

  /** The filter keeps edge order and repeats: filtering a concatenation
      concatenates the filtered parts. */
  lemma {:induction false} IncidentAppend(a: seq<Edge>, b: seq<Edge>, k: string)
    ensures Incident(a + b, k) == Incident(a, k) + Incident(b, k)
  {
    if a != [] {
      assert (a + b)[0] == a[0] && (a + b)[1..] == a[1..] + b;
      IncidentAppend(a[1..], b, k);
      var head := if Touches(a[0], k) then [a[0]] else [];
      calc {
        Incident(a + b, k);
        head + Incident(a[1..] + b, k);
        head + (Incident(a[1..], k) + Incident(b, k));
        (head + Incident(a[1..], k)) + Incident(b, k);
        Incident(a, k) + Incident(b, k);
      }
    } else {
      assert a + b == b;
    }
  }

  /** The neighbour keys of a concatenation are those of its parts, in
      order: each touching edge contributes its own entry where it stands. */
  lemma {:induction false} NeighborKeysAppend(a: seq<Edge>, b: seq<Edge>, k: string)
    ensures NeighborKeys(a + b, k) == NeighborKeys(a, k) + NeighborKeys(b, k)
  {
    if a != [] {
      assert (a + b)[0] == a[0] && (a + b)[1..] == a[1..] + b;
      NeighborKeysAppend(a[1..], b, k);
      var head := if Touches(a[0], k) then [Opposite(a[0], k)] else [];
      assert NeighborKeys(a + b, k) == head + NeighborKeys(a[1..] + b, k);
      assert NeighborKeys(a, k) == head + NeighborKeys(a[1..], k);
    } else {
      assert a + b == b;
    }
  }

  /** Number of edges joining `k` and `n`. */
  function CountLinks(edges: seq<Edge>, k: string, n: string): nat {
    if edges == [] then 0
    else (if Links(edges[0], k, n) then 1 else 0) + CountLinks(edges[1..], k, n)
  }

  /** A key occurs among the neighbour keys of `k` exactly as often as there
      are edges joining it to `k`: nothing is deduplicated and nothing else
      gets in. */
  lemma {:induction false} NeighborMultiplicity(edges: seq<Edge>, k: string, n: string)
    ensures multiset(NeighborKeys(edges, k))[n] == CountLinks(edges, k, n)
  {
    if edges != [] {
      NeighborMultiplicity(edges[1..], k, n);
      var e := edges[0];
      assert (Touches(e, k) && Opposite(e, k) == n) <==> Links(e, k, n);
      var head := if Touches(e, k) then [Opposite(e, k)] else [];
      assert NeighborKeys(edges, k) == head + NeighborKeys(edges[1..], k);
      assert multiset(head + NeighborKeys(edges[1..], k)) == multiset(head) + multiset(NeighborKeys(edges[1..], k));
    }
  }

  lemma {:induction false} CountLinksPositive(edges: seq<Edge>, k: string, n: string)
    ensures CountLinks(edges, k, n) > 0 <==> Adjacent(edges, k, n)
  {
    if edges != [] {
      CountLinksPositive(edges[1..], k, n);
      if Adjacent(edges[1..], k, n) {
        var i :| 0 <= i < |edges[1..]| && Links(edges[1..][i], k, n);
        assert Links(edges[i + 1], k, n);
      }
      if Adjacent(edges, k, n) && !Links(edges[0], k, n) {
        var i :| 0 <= i < |edges| && Links(edges[i], k, n);
        assert i > 0 && Links(edges[1..][i - 1], k, n);
      }
    }
  }

  /** Every neighbour key of `k` is joined to `k` by some edge. */
  lemma NeighborsAdjacent(edges: seq<Edge>, k: string)
    ensures forall n :: n in NeighborKeys(edges, k) ==> Adjacent(edges, k, n)
  {
    forall n | n in NeighborKeys(edges, k)
      ensures Adjacent(edges, k, n)
    {
      AdjacentIffNeighbor(edges, k, n);
    }
  }

  /** `n` is a neighbour key of `k` exactly when some edge joins them. */
  lemma AdjacentIffNeighbor(edges: seq<Edge>, k: string, n: string)
    ensures n in NeighborKeys(edges, k) <==> Adjacent(edges, k, n)
  {
    NeighborMultiplicity(edges, k, n);
    CountLinksPositive(edges, k, n);
  }
}
