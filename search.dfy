/** The search matcher. Both views resolve the two query boxes, a key query
    and a label query, to at most one node with the same predicate: the key
    must equal the key query ignoring case, the label must contain the label
    query ignoring case, both rules apply when both queries are filled in,
    and the first node in list order that passes wins. There is no wildcard. */
module Search {
  import opened Text
  import opened GraphData

  datatype Query = Query(key: string, labelText: string)

  /** A query is in force when either box is non-empty (JavaScript truthiness). */
  predicate IsSet(q: Query) {
    q.key != "" || q.labelText != ""
  }

  predicate KeyMatches(n: Node, query: string) {
    Lower(n.key) == Lower(query)
  }

  predicate LabelMatches(n: Node, query: string) {
    n.labelText != "" && Includes(Lower(n.labelText), Lower(query))
  }

  /** The predicate handed to `nodes.find` (the three-way `if` on which
      queries are non-empty): nothing matches an empty query. */
  predicate Matches(n: Node, q: Query)
    ensures Matches(n, q) ==> IsSet(q)
  {
    if q.key != "" && q.labelText != "" then KeyMatches(n, q.key) && LabelMatches(n, q.labelText)
    else if q.key != "" then KeyMatches(n, q.key)
    else if q.labelText != "" then LabelMatches(n, q.labelText)
    else false
  }

  /** The three-way `if` read as one rule: some query is set, and every
      query that is set holds. */
  lemma MatchesIsConjunction(n: Node, q: Query)
    ensures Matches(n, q) <==>
      IsSet(q)
      && (q.key != "" ==> KeyMatches(n, q.key))
      && (q.labelText != "" ==> LabelMatches(n, q.labelText))
  {
  }

  /** `nodes.find(matches)`, as the index of the node found. */
  function FindMatch(nodes: seq<Node>, q: Query): (r: Option<nat>)
    ensures r.Some? ==> r.value < |nodes| && Matches(nodes[r.value], q)
    ensures r.Some? ==> forall j :: 0 <= j < r.value ==> !Matches(nodes[j], q)
    ensures r.None? <==> forall j :: 0 <= j < |nodes| ==> !Matches(nodes[j], q)
  {
    if nodes == [] then None
    else if Matches(nodes[0], q) then Some(0)
    else
      assert forall j :: 0 <= j < |nodes| - 1 ==> nodes[1..][j] == nodes[j + 1];
      match FindMatch(nodes[1..], q)
      case None => None
      case Some(i) => Some(i + 1)
  }

  /** Without a query nothing matches. */
  lemma NoQueryNoMatch(nodes: seq<Node>, q: Query)
    requires !IsSet(q)
    ensures FindMatch(nodes, q) == None
  {
  }

  /** Lower-casing a query does not change which nodes it matches. */
  lemma MatchesLoweredQuery(n: Node, q: Query)
    ensures Matches(n, Query(Lower(q.key), Lower(q.labelText))) == Matches(n, q)
  {
    LowerIdempotent(q.key);
    LowerIdempotent(q.labelText);
  }

  /** Both sides of every comparison are lower-cased, so typing a query in
      upper or lower case finds the same node. */
  lemma {:induction false} FindMatchIgnoresQueryCase(nodes: seq<Node>, q: Query)
    ensures FindMatch(nodes, Query(Lower(q.key), Lower(q.labelText))) == FindMatch(nodes, q)
  {
    if nodes != [] {
      MatchesLoweredQuery(nodes[0], q);
      FindMatchIgnoresQueryCase(nodes[1..], q);
    }
  }

  /** Searching for a node's own key and label finds that node, provided
      its key is not empty and no earlier node has the same key up to case
      (this is what re-centring on a clicked node relies on). */
  lemma SelfQueryFindsNode(nodes: seq<Node>, i: nat)
    requires i < |nodes| && nodes[i].key != ""
    requires forall j :: 0 <= j < i ==> Lower(nodes[j].key) != Lower(nodes[i].key)
    ensures FindMatch(nodes, Query(nodes[i].key, nodes[i].labelText)) == Some(i)
  {
    var q := Query(nodes[i].key, nodes[i].labelText);
    var n := nodes[i];
    assert KeyMatches(n, q.key);
    if q.labelText != "" {
      IncludesItself(Lower(n.labelText));
      assert LabelMatches(n, q.labelText);
    }
    assert Matches(n, q);
    var r := FindMatch(nodes, q);
    assert r.Some?;
    assert r.value <= i;
  }
}
