# Graph viewer navigation, modelled in Dafny

This project models the navigation logic of a small graph viewer. The viewer has two React views:
- `src/App.tsx`, the main view;
- `src/StarGraph.tsx`, a standalone view.

Both views resolve two query boxes to one node. The first box is a key, compared ignoring case. The second is a label substring, also ignoring case. The first node in document order that passes wins. Each view then shows a "star": the matched node, the node at the other end of every edge touching it, and one edge per such neighbour.

The main view also maintains the following:
- a camera: the bounding box of the loaded document's nodes (which, once the layout effect has run, lie on a circle of radius 10, whatever star is drawn), fit-to-viewport, clamping, and zoom buttons;
- a graph whose node and edge attributes are reset and restyled around the highlighted node;
- selection and details state, changed by clicks, Reset, Close and upload.

The standalone view builds a list of display elements. It reacts to tap and Reset. It also defines a double-tap handler, which the model states, but the code never attaches it (see Left out).

Modules, one per file:
- `Text` (text.dfy): ASCII lower-casing and `String.includes`.
- `GraphData` (graph_data.dfy): nodes, edges, JavaScript's `??` and `||` defaults, the key lookup, the edges touching a key, and the neighbour keys.
- `Search` (search.dfy): the match predicate and the first-match search.
- `AppStar` (app_star.dfy): the main view's star builder and its status line.
- `Viewport` (viewport.dfy): the bounding-box loop, fit, clamp and zoom, plus a `Camera` class holding `x`, `y` and `ratio`.
- `Highlight` (highlight.dfy): the highlight key, and a `StyledGraph` class whose attribute map and edge attributes the effect rewrites in place.
- `AppSession` (app_session.dfy): the main view's state as a `Session` class with one method per handler or effect.
- `StarGraph` (star_graph.dfy): the standalone view's element builder and its `StarView` state class.

The model follows what the code does, which differs from what a reader of the interface might expect:
- There is no `*` wildcard in either query.
- Neighbour keys are not deduplicated. A neighbour joined by two edges appears twice.
- Node keys are not checked for uniqueness. A lookup returns the first node with the key.
- `clampCamera` is not idempotent when the ratio starts below the minimum 0.2. See Findings. Above the maximum 2.5 a second clamp changes nothing (`Viewport.ClampedIdempotentAboveMax`).

Values are modelled as follows:
- Numbers are `real`.
- JavaScript's `Infinity` is written out as `Viewport.Extended`. It appears in the initial values of the bounding-box loop and in the scale of an axis of zero extent.
- A missing label is the empty string. Every use in the code treats the two alike.
- A missing colour or size is `None`. The views default them differently: `??` in one, `||` in the other.

## Model

| member | source | states |
|---|---|---|
| Text.Lower | src/App.tsx:124 | lower-casing keeps the length, maps each ASCII capital to its small letter and leaves every other character alone |
| Text.LowerIdempotent | src/App.tsx:124-125 | folding twice is folding once; only "" folds to "" |
| Text.Includes | src/App.tsx:125 | a string contains every prefix of itself, and nothing longer than itself |
| Text.IncludesItself | src/App.tsx:125 | every string contains itself |
| Text.EmptyIncludesOnlyEmpty | src/App.tsx:313-316 | the "" label fallback contains no non-empty query |
| GraphData.OrElse | src/StarGraph.tsx:92-99 | `o ?? d` keeps any present value, even "" or 0, and yields `d` only for a missing one |
| GraphData.TextOr | src/App.tsx:299 | `o \|\| d` on a string keeps a present non-empty value and yields `d` for a missing or empty one |
| GraphData.NumberOr | src/App.tsx:300 | `o \|\| d` on a number keeps a present non-zero value and yields `d` for a missing or zero one |
| GraphData.Lookup | src/App.tsx:153 | finds a node exactly when one has the key, and returns the first node of the list with that key |
| GraphData.Incident | src/App.tsx:143-145 | the filtered edges are exactly the input edges touching the key |
| GraphData.NeighborKeys | src/App.tsx:146-148 | one key per touching edge, the other endpoint of that edge |
| GraphData.IncidentAppend | src/App.tsx:143-145 | the filter keeps the touching edges in their input order: filtering a concatenation concatenates the filtered parts |
| GraphData.NeighborKeysAppend | src/App.tsx:143-148 | the neighbour keys follow edge order: those of a concatenation are those of the parts, concatenated |
| GraphData.NeighborsAdjacent | src/App.tsx:143-148 | every neighbour key is joined to the centre by some edge |
| GraphData.NeighborMultiplicity | src/App.tsx:143-148 | a key occurs among the neighbour keys exactly as often as edges join it to the centre (no deduplication) |
| GraphData.CountLinksPositive | src/App.tsx:143-148 | some edge joins two keys exactly when the count of joining edges is positive |
| GraphData.AdjacentIffNeighbor | src/App.tsx:143-148 | a key is a neighbour key exactly when some edge joins it to the centre |
| Search.Matches | src/App.tsx:123-134 | nothing matches when both queries are empty |
| Search.MatchesIsConjunction | src/App.tsx:123-134 | a node matches exactly when some query is set and every set query holds |
| Search.FindMatch | src/App.tsx:123-134 | the node found matches, no earlier node matches, and nothing is found exactly when no node matches |
| Search.NoQueryNoMatch | src/App.tsx:133 | with both queries empty nothing matches |
| Search.MatchesLoweredQuery | src/App.tsx:124-125 | lower-casing the queries changes no single match |
| Search.FindMatchIgnoresQueryCase | src/App.tsx:123-134 | the search finds the same node whatever the case of the queries |
| Search.SelfQueryFindsNode | src/App.tsx:274-278 | a node's own key and label find that node when its key is not "" and unique up to case among earlier nodes |
| AppStar.KeptKeys | src/App.tsx:167 | the kept neighbour keys are exactly the non-empty keys that name a node, and never more than the keys |
| AppStar.KeptKeysAppend | src/App.tsx:167 | the filter keeps the surviving keys in order, repeats included |
| AppStar.NeighborNodes | src/App.tsx:152-159 | every neighbour entry is the looked-up record of its key, moved |
| AppStar.NeighborNodesKeys | src/App.tsx:152-167 | the neighbour entries kept have the kept keys, in edge order |
| AppStar.NeighborNodesKeepPlaces | src/App.tsx:152-159 | when every key names a node, entry `j` has key `j` at ring position `j` |
| AppStar.FirstLink | src/App.tsx:162-164 | finds an edge exactly when one joins the two keys, and that edge is the first input edge joining them |
| AppStar.StarEdges | src/App.tsx:161-165 | at most one star edge per key, each an input edge touching the centre |
| AppStar.FirstLinkAmongIncident | src/App.tsx:143-164 | searching the touching edges finds the same edge as searching all edges |
| AppStar.StarEdgesAllFound | src/App.tsx:161-165 | when every key is joined to the centre, edge `i` is the first edge joining key `i` |
| AppStar.NeighborsJoinedAmongIncident | src/App.tsx:143-148 | every neighbour key is joined to the centre by one of the touching edges |
| AppStar.OneStarEdgePerNeighborKey | src/App.tsx:143-165 | exactly one star edge per neighbour key, joining centre and key; parallel edges repeat the first |
| AppStar.BuildStar | src/App.tsx:117-170 | no query or no match gives the empty star; otherwise the centre at the origin, then the looked-up records of the neighbour keys on the ring (those that name a node, in edge order), and for neighbour key `i` the first input edge joining it to the centre, in its stored direction |
| AppStar.SearchStatus | src/App.tsx:442-454 | idle exactly when no query is set; "no match" exactly when a query is set and no node passes it; otherwise the first node that passes |
| AppStar.StatusAgreesWithStar | src/App.tsx:442-454 | the status line says "Matched" exactly when the star is non-empty and names its centre; it is idle exactly when no query is set |
| Viewport.MinExt | src/App.tsx:44 | `Math.min` over reals and infinities is one of its arguments and below both |
| Viewport.MaxExt | src/App.tsx:45 | `Math.max` over reals and infinities is one of its arguments and above both |
| Viewport.LeastIsMinimum | src/App.tsx:43-48 | the running minimum is below every coordinate and is one of them |
| Viewport.GreatestIsMaximum | src/App.tsx:43-48 | the running maximum is above every coordinate and is one of them |
| Viewport.GraphBox | src/App.tsx:28-50 | the box contains every node; for one node it is the position plus or minus 1; otherwise its sides are node coordinates |
| Viewport.GetGraphBBox | src/App.tsx:28-50 | the loop yields the box above, and the infinite start values for no nodes |
| Viewport.AxisScale | src/App.tsx:61-62 | the scale is finite exactly when the extent is positive, and then scale times extent is the room |
| Viewport.FitRatio | src/App.tsx:58-65 | the fit ratio is never negative, and is 0 (JavaScript's `1 / Infinity`) exactly when the box is a single point |
| Viewport.FitRatioFits | src/App.tsx:58-65 | at the fitted ratio each axis of the box fits the viewport less twice the margin, and one axis fills it |
| Viewport.FitShowsWholeGraph | src/App.tsx:53-70 | after fitting, the box lies within the visible area less the margin around the camera centre |
| Viewport.ClampValue | src/App.tsx:87-88 | the midpoint when the bounds cross; otherwise a value within the bounds, the value itself when inside, else the nearer bound |
| Viewport.ClampRatio | src/App.tsx:91 | the ratio is brought into [0.2, 2.5] and left alone when inside |
| Viewport.Clamped | src/App.tsx:79-91 | the ratio is brought into bounds, and a centre whose view at the old ratio lies on the box is left alone |
| Viewport.ClampedOnce | src/App.tsx:79-91 | the corrected clamp brings the ratio into bounds and leaves alone a centre whose view at the new ratio lies on the box |
| Viewport.ClampedKeepsViewOnGraph | src/App.tsx:73-96 | after the clamp the ratio is in bounds and each axis of the view, at the pre-clamp ratio, lies on the box or is centred on a smaller box |
| Viewport.ClampedIdempotentInRange | src/App.tsx:73-96 | with the ratio in bounds a second clamp changes nothing |
| Viewport.ClampedSettlesBySecondCall | src/App.tsx:73-96 | from any camera, the third clamp changes nothing after the second |
| Viewport.ClampedNotIdempotent | src/App.tsx:79-91 | a camera at ratio 0.1 is moved again by a second clamp |
| Viewport.ClampedIdempotentAboveMax | src/App.tsx:79-91 | from a ratio above the maximum, a second clamp as written changes nothing |
| Viewport.ClampedOnceIdempotent | src/App.tsx:73-96 | the corrected clamp is idempotent from any camera |
| Viewport.ClampedOnceKeepsViewOnGraph | src/App.tsx:73-96 | the corrected clamp keeps the view at its final ratio on the box |
| Viewport.ClampedAgreesInRange | src/App.tsx:73-111 | with the ratio in bounds, which is where zooming leaves it, the clamp as written and the corrected clamp agree |
| Viewport.CentredCameraStays | src/App.tsx:79-91 | a camera at the box midpoint keeps its centre under both clamps; only the ratio is clamped |
| Viewport.FittedClampSettles | src/App.tsx:53-96 | after a fit, the clamp as written agrees with the corrected clamp and a second clamp changes nothing |
| Viewport.Camera.FitToViewport | src/App.tsx:53-70 | the camera becomes the box midpoint at the fit ratio |
| Viewport.Camera.ClampCamera | src/App.tsx:73-96 | the camera becomes the clamped camera, and the state is written exactly when it changes |
| Viewport.Camera.HandleZoom | src/App.tsx:99-111 | the centre stays, the ratio becomes ratio times delta brought into [0.2, 2.5], and a change is reported exactly when the ratio changed |
| Highlight.BaseStyle | src/App.tsx:297-304 | the reset style has the loaded colour and size or "#888" and 8, and no highlight, bold label or label size |
| Highlight.StyleFor | src/App.tsx:297-346 | a node is marked highlighted exactly when it is the highlight key, and bold exactly when it is that key or adjacent to it |
| Highlight.EdgeStyleFor | src/App.tsx:305-308 | an edge is orange exactly when a highlight key is set and the edge touches it, and plain otherwise |
| Highlight.EdgeStyles | src/App.tsx:305-308 | one style per edge, orange for an edge touching the highlight key and "#bbb" otherwise |
| Highlight.BoldExactlyFocusAndNeighbors | src/App.tsx:333-346 | only the highlighted node is marked highlighted; a label is bold exactly for the highlighted node and its neighbour keys |
| Highlight.NoHighlightNoEmphasis | src/App.tsx:296-308 | without a highlight key nothing is bold or highlighted and every edge is plain |
| Highlight.HotEdgesAreIncident | src/App.tsx:347-352 | the orange edges are as many as the edges touching the highlighted node, and as many as its neighbour keys |
| Highlight.HighlightKey | src/App.tsx:310-332 | with a query, the first matching graph node's key unless it is ""; without one, the selection unless it is "" |
| Highlight.MatchesIgnoresPosition | src/App.tsx:312-321 | the match depends on key and label only |
| Highlight.StarHighlightsCentre | src/App.tsx:310-321 | with a matching query the highlighted node of the star is its centre |
| Highlight.ClickedNodeIsHighlighted | src/App.tsx:274-278 | after a click fills the queries, the clicked node is highlighted |
| Highlight.StyledGraph.constructor | src/App.tsx:182-184 | the graph holds the star's nodes and edges, each node with its record's attributes |
| Highlight.StyledGraph.ResetAll | src/App.tsx:297-308 | every node gets its base style and every edge the plain style; the graph is otherwise unchanged |
| Highlight.StyledGraph.HighlightNodes | src/App.tsx:333-346 | the highlighted node gets the focus style, adjacent nodes the neighbour style, and others keep the base style |
| Highlight.StyledGraph.EmphasizeNeighbors | src/App.tsx:341-346 | exactly the nodes adjacent to the highlighted node are restyled |
| Highlight.StyledGraph.HighlightEdges | src/App.tsx:347-352 | exactly the edges touching the highlighted node turn orange |
| Highlight.StyledGraph.Restyle | src/App.tsx:296-353 | every node and edge ends with the style the highlight key determines, independent of earlier styles, and the graph stays well-formed |
| AppSession.Session.constructor | src/App.tsx:13-19 | loading, no graph, empty queries, nothing selected |
| AppSession.Session.Loaded | src/App.tsx:173-177 | the loaded graph is installed and loading ends |
| AppSession.Session.ReplaceGraph | src/App.tsx:401-406 | the uploaded graph replaces the old one; queries and selection are cleared and the status goes idle |
| AppSession.Session.EditSearchKey | src/App.tsx:418 | only the key query changes |
| AppSession.Session.EditSearchLabel | src/App.tsx:425 | only the label query changes |
| AppSession.Session.Reset | src/App.tsx:429-434 | queries and selection are cleared and the status goes idle |
| AppSession.Session.CloseDetails | src/App.tsx:491 | only the selection and details are cleared |
| AppSession.Session.ClickStage | src/App.tsx:281-284 | only the selection and details are cleared |
| AppSession.Session.ClickNode | src/App.tsx:274-280 | the clicked node's key and label fill the queries, and it becomes selected with its record as details |
| AppSession.Session.BuildGraph | src/App.tsx:180-185 | no graph while loading or for an empty star; otherwise a new graph holding the star |
| AppSession.Session.HighlightEffect | src/App.tsx:292-354 | the graph is restyled around the highlight key; with a query the selection and details follow the match or are cleared |
| AppSession.ParallelEdgesRepeatNeighbor | src/App.tsx:146-168 | two edges to the same neighbour put its key twice in the star |
| StarGraph.Centre | src/StarGraph.tsx:70-83 | the centre is a node of the document, and matches the query when something does |
| StarGraph.CentreIsFirstMatch | src/StarGraph.tsx:72-81 | when some node passes the query, the centre is the first node in list order that passes it |
| StarGraph.NoMatchCentresOnFirst | src/StarGraph.tsx:70-81 | with no query, or a query no node passes, the centre stays `nodes[0]`, where the main view shows no star |
| StarGraph.CentreAgreesWithMainView | src/StarGraph.tsx:70-82 | with a match, both views pick the same centre |
| StarGraph.NodeElementOf | src/StarGraph.tsx:92-99 | the element carries the record under its key, with a present size and colour kept and missing ones defaulted |
| StarGraph.DefaultsKeepEmptyValues | src/StarGraph.tsx:99 | `??` keeps an empty colour and a zero size where `\|\|` would replace them |
| StarGraph.NeighborElements | src/StarGraph.tsx:95-102 | one node element per neighbour key, the first node with that key, at ring position `i` |
| StarGraph.EdgeElements | src/StarGraph.tsx:105-113 | one edge element per neighbour key, from the centre to the key, with id "centre-key" |
| StarGraph.BuildElements | src/StarGraph.tsx:84-114 | 1 + 2·(neighbour count) elements: the centre at the origin, the neighbour node elements, then the edge elements |
| StarGraph.PartsShape | src/StarGraph.tsx:90-114 | node elements come before edge elements; edge elements leave the centre towards joined, existing nodes |
| StarGraph.NeighborsShape | src/StarGraph.tsx:90-114 | for the neighbour keys of a centre, the node elements carry those keys in order and each edge element leaves the centre to a joined node |
| StarGraph.ElementsShape | src/StarGraph.tsx:84-114 | node elements first, carrying the neighbour keys in order; each edge element leaves the centre to a joined node; one per touching edge |
| StarGraph.AgreesWithMainViewStar | src/StarGraph.tsx:84-114 | when every neighbour key names a node, both views show the same records in the same order, and the same node pairs |
| StarGraph.StarView.constructor | src/StarGraph.tsx:58-65 | loading, no elements, empty queries, nothing selected or centred |
| StarGraph.StarView.LoadAndBuild | src/StarGraph.tsx:68-118 | with the queries the load captured, the elements are built around the centre, which becomes the selection, the details and the centre key; the current queries are left alone |
| StarGraph.StarView.Tap | src/StarGraph.tsx:153-163 | a node tap selects and centres on it with its data as details; a background tap clears selection and details and keeps the centre key |
| StarGraph.StarView.DoubleTap | src/StarGraph.tsx:137-145 | the handler, were it attached: a node double-tap puts its key and label in the queries and its key as centre key; otherwise nothing changes |
| StarGraph.StarView.Reset | src/StarGraph.tsx:186 | both queries are cleared and nothing else changes |
| StarGraph.StarView.EditSearchKey | src/StarGraph.tsx:176 | only the key query changes |
| StarGraph.StarView.EditSearchLabel | src/StarGraph.tsx:183 | only the label query changes |
| StarGraph.DoubleTapRecentres | src/StarGraph.tsx:137-145 | the handler's key and label would re-centre the next load on the double-tapped node |

## Left out

- server.js (the upload endpoint) and src/graphLoader.ts (fetch and YAML parsing) are file and network I/O and are not modelled. The loaded document enters as the arguments of `Loaded`, `ReplaceGraph` and `LoadAndBuild`.
- Parsing an uploaded file, its error alert and the download link (src/App.tsx:381-411) are browser I/O. Only the state reset after a successful parse is modelled, as `ReplaceGraph`.
- The circle layouts use cosine and sine (src/App.tsx:150-158 and 357-369; src/StarGraph.tsx:50-55, 88-97). They are floating-point trigonometry. Neighbour positions come from a `place` parameter, and the whole-graph layout effect (357-369) is not modelled.
- The renderers are not modelled: Sigma's node and edge reducers (src/App.tsx:191-265), the Cytoscape stylesheet, and the centre-highlight effect with its animation (src/StarGraph.tsx:122-131). They turn attributes into pixels.
- Event registration, `setTimeout` and the touchmove listener are not modelled, nor is React's ordering of effects. Each handler and effect is a method called explicitly. For example, the clamp that `handleZoom` schedules is a separate `ClampCamera` call.
- Viewport.Camera.FitToViewport: requires a non-empty node list and assumes a renderer exists (src/App.tsx:54). With no nodes the code computes NaN from infinite bounds.
- Viewport.Camera.ClampCamera: requires a non-empty node list and assumes a renderer exists (src/App.tsx:74), for the same reason.
- Viewport.Camera.HandleZoom: assumes a renderer exists (src/App.tsx:100).
- Floating-point rounding is not modelled: camera arithmetic is over reals. An axis of zero extent gives an infinite scale, as in JavaScript. Both axes zero give ratio 0.
- The layout effect runs only when `nodes.length` or a query changes (src/App.tsx:369). An upload replaces `nodes` (line 401) and clears the queries (lines 403-404). If the new document has as many nodes as the old one and both queries were already empty, the layout is skipped. The nodes then keep the positions the document gives, or have none. A missing position is `undefined` in the code, and the box and the fitted camera become NaN. The model's `real` x and y cannot express that.
- Case folding covers ASCII letters only, not JavaScript's full Unicode `toLowerCase`.
- Highlight.StyledGraph.constructor: requires distinct keys, distinct edges and endpoints that are nodes. The graph library throws otherwise, and the resulting crash is not modelled. `AppSession.ParallelEdgesRepeatNeighbor` shows that two parallel edges at the matched node already reach that case. So does a star edge to a neighbour key that names no node.
- Highlight.StyledGraph.Valid excludes self-loops, through the requires of `AppSession.Session.BuildGraph` and the `StyledGraph` constructor. A self-loop does reach the graph without a repeated key in one case. The centre's key is "", it is matched by label alone, and the document has an edge ("", ""). The `n && n.key` filter (src/App.tsx:167) drops the neighbour key "", but the star edge ("", "") is kept (src/App.tsx:161-165), and lines 183-184 add it to the graph. The graph library's handling of self-loops, and the restyling that follows, are not modelled for that input.
- Highlight.StyledGraph.EmphasizeNeighbors visits the graph's nodes and restyles those adjacent to the highlighted node. It does not follow the library's neighbour iterator. With distinct keys the set restyled is the same.
- AppSession.Session.HighlightEffect: requires the selected node to be a node of the graph when no query is set. Styling a missing node throws, and that crash is not modelled.
- StarGraph.StarView.LoadAndBuild: requires a non-empty document and a node for every neighbour key of the centre. The code reads `nodes[0].key` and `n.key` and throws otherwise. Its `loading` flag is only ever cleared.
- StarGraph.StarView.LoadAndBuild takes the queries as a parameter. The load's callback uses the queries captured when its effect started (src/StarGraph.tsx:118), and nothing cancels an earlier load. After two quick edits, a load that resolves last can install the star of the older queries. The model lets a caller pass any captured queries, but it does not model which load resolves last.
- The details panels (src/App.tsx:460-497, src/StarGraph.tsx:198-205) are rendering of `nodeInfo`/`info` and are not modelled.
- StarGraph.StarView.DoubleTap: the code never attaches this handler. The effect that registers it (src/StarGraph.tsx:134-151) depends on `[cyRef]`, so it runs only after the first render. On that render `loading` is true, the loading text is returned (line 165), `cyRef.current` is still null, and the effect returns at line 135. The ref object never changes, so the effect never runs again. The model states the handler's body as written; no sequence of `StarView` calls stands for the missing registration.

## Findings

| source | as written | input that shows it | evidently intended | confidence | as-written member | corrected member |
|---|---|---|---|---|---|---|
| src/App.tsx:79-91 | the centre bounds use the visible extent at the ratio the camera had before `clampedRatio` is applied, so a camera whose ratio is raised to 0.2 is bounded for a view five times too narrow | box [-2000, 2000] on both axes, camera (2000, 0, 0.1): the first clamp gives (1948.8, 0, 0.2), and a second clamp moves it to (1897.6, 0, 0.2) | bound the centre by the extent at the clamped ratio, so that one clamp leaves a camera that a further clamp does not move | not executed | Viewport.ClampedNotIdempotent | Viewport.ClampedOnceIdempotent |

`Viewport.Camera.ClampCamera` keeps the code as written, because the renderer's "updated" event re-runs it after every write. `Viewport.ClampedSettlesBySecondCall` shows that the camera then comes to rest after the second call. `Viewport.ClampedAgreesInRange` shows that the two definitions differ only while the ratio is out of bounds. `fitGraphToViewport` can leave the ratio out of bounds. It fits the document's nodes, not the star. Once the layout effect (src/App.tsx:357-369) has run, those nodes lie on a circle of radius 10, so the box is at most 20 wide and 20 high. The fit ratio is then at most 20/528, about 0.038, which is below 0.2. The fit still does not show the drift. It centres the camera on the box midpoint, and `Viewport.CentredCameraStays` shows that both clamps keep such a camera where it is. `Viewport.FittedClampSettles` draws the conclusion: after a fit, the two clamps agree and a second clamp changes nothing. The zoom buttons keep the ratio within bounds. The drift therefore needs a camera away from the box midpoint at a ratio below 0.2. Only the renderer's own panning and zooming, which are not modelled, can produce one.
