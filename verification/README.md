# Verified model of the lineage, impact and webhook core

This project models the parts of the repository whose correctness is an
argument rather than a lookup, and proves them in Dafny: the column-lineage
resolver, the lineage graph walks and the blast radius built on them, the DAG
layout, the numeric kernels, the text and schema transformations, and the
stateful services (webhook, UDF registry, rate limiter).

`dafny verify dfyconfig.toml` checks everything.

## What is modelled

**Column lineage** (`SqlAst`, `ColumnLineage`, `TableWalk`). The part of the
pg_query tree that `internal/lineage/columns.go` reads is a datatype; scopes are
objects that `AddFrom` fills, as in the source. `QuerySemantics` gives such a
query a meaning that owes nothing to the resolver: a FROM clause is the cross
product of its sources, any join condition, filter, grouping or DISTINCT is an
arbitrary choice of row combinations made from the row counts alone, a target
is an arbitrary function of its operands, and an unqualified name that several
sources could bind may bind to any of them. `FullLineage` is the
resolver without its blind spots: it looks into every expression node and has no
depth cap. `LineageSoundness` proves that what it lists covers what a query
computes, and `LineagePrecision`, by the counting databases of
`MarkedEvaluation`, that it lists nothing in vain; so the source's resolver is
sound exactly as far as it agrees with it. `UnwalkedNodes` says the same over one
table by column names alone. `LineageContainment` bounds what can be listed by
the tables and names of the query, `LineageCtes` says which names of a query its
environment decides, and what that does to set operations and recursive CTEs.
`LineageConfidence` ties each label to the bindings on the way, `LineageCertainty`
to the items written in the FROM clauses, `StrictLineage` to a resolver that binds
a name only where one item can hold it. `ResolverCases` states what the simplest
queries give edge for edge: aliases, schemas, case, two tables, a CTE, the depth cap.

**Graph walks** (`Paths`, `Impact`, `LineageGraph`, `GraphDistances`,
`AnchorPattern`, `PrAnalysis`, `DagLayers`, `DagLayout`). Edges are a finite
set. Shortest distance is defined once, in `Paths`, by the growing ball around
a node, and by walks; the breadth-first `Preview`, the recursive query that
enumerates guarded paths, the merge over a pull request's changes and the
signed layering of the frontend are each proved against it.

**Numeric kernels** (`RealSums`, `CostForecast`, `CosineSimilarity`,
`AnomalyDetection`, `RateLimiter`). `float64` is a real number and `math.Sqrt`
any function whose result is nonnegative and squares to its argument. Rounding,
overflow and NaN are not modelled.

**Text and structures** (`TextLines`, `Jinja`, `JinjaDocuments`, `LineDiff`,
`SchemaDiff`, `EmbeddingCodec`). Strings are sequences of characters. The five
regular expressions of the Jinja preprocessor are matchers at the start of a
string; each is deterministic, so leftmost-first search has nothing to choose.

**Services and slices** (`GithubStore`, `Webhook`, `WebhookRuns`,
`WebhookEffects`, `TenancyRuns`, `UdfRegistry`, `SliceDedupe`, `TableScrape`). Tables
are maps under their unique keys, a SQL statement is one atomic step that takes effect or fails and
changes nothing, and each delivery carries the set of its statements that fail.
The signature check, the decoded body and the findings of the analysis are part
of the delivery. A Go slice is an array and a length, so that writes through a
shared backing array are writes to the array.

## Where the code and its documentation part

- `internal/lineage/columns.go:109-111` says a self-reference of a recursive CTE
  resolves to nothing. It resolves to whatever the name means outside, at the top
  level a base table, with an exact edge (`LineageCtes.RecursiveLineage`,
  `LineageCtes.SelfReferenceIsReadAsTable`). Of an anchor over base tables the
  comment is right exactly when the anchor reads that table itself, alone
  (`LineageCtes.AnchorLineageOnlyIff`), and an arm takes its own name for a table
  exactly when no visible CTE has that name (`LineageCtes.SelfReferenceIff`).
- A set operation with its own WITH clause loses it: the arms of
  `internal/lineage/columns.go:70-76` are projected under the outer CTEs only
  (`LineageCtes.SetOperationIgnoresItsWith`). An arm that names such a CTE gets
  an exact edge from a table that is not there (`LineageCtes.LostCteIsReadAsTable`).
  It takes one for a table exactly when its FROM clause names one not visible
  otherwise (`LineageCtes.LostWithChangesTablesIff`); if no arm names one,
  nothing is lost (`LineageCtes.LostWithIsHarmless`).
- Expression nodes without a case in `columnRefsIn`, and operands below its depth
  cap, hide their columns, as do queries nested below it. The lineage of a column is
  sound exactly when it lists all that the resolver without these limits lists
  (`LineagePrecision.SoundIff`); over one table, when every hidden column is also
  referenced in sight (`UnwalkedNodes.SoundIff`).
- FROM items the resolver ignores do not count as candidates, so an edge can be
  exact although another item could hold the column
  (`LineageCertainty.ExactDespiteSeveralItems`). A derivation is certain exactly
  when it is labelled exact and every FROM clause on the way was clear: no item
  ignored and no derived name repeated, or, for a qualified name, one item of that
  name (`LineageCertainty.CertainIff`). An exact edge is deserved exactly when the
  strict resolver lists it too (`StrictLineage.ExactIsDeservedIff`).
- The column-granularity root of `internal/lineage/graph.go:109-115` is expanded
  with LIKE, so an underscore in the name is a wildcard
  (`AnchorPattern.PatternMeansPrefix`), and no node of such a graph has depth 0
  (`GraphDistances.ColumnDepths`).
- `internal/githubapp/store.go:22-25` wants a database error while resolving the
  tenant to make GitHub retry. The delivery id is recorded first and the answer
  is 200, so the event is lost (`WebhookRuns.FailedDispatchIsNeverRetried`); only
  a failing dedupe statement leaves it to a retry (`WebhookRuns.RetryPossibleIff`).
- `internal/impact/impact.go:23` calls a hit's reason the chain of upstream names. It
  is the last edge of one (`Impact.Preview`), and after a merge that of the first
  change that reached the node.
- A suppression is looked up by repository name, although the row also holds the
  immutable id: a rename brings the analyses back
  (`WebhookRuns.RenameEscapesSuppression`, `WebhookRuns.SilencedIff`).
- Disconnecting a repository does not stop its analyses, through any run in which
  neither the claim nor the installation changes (`TenancyRuns.DisconnectKeepsAnalyses`).
- With a negative threshold the anomaly detector also flags points on the mean,
  as spikes, so negating a series does not exchange spike and drop
  (`AnomalyDetection.ExchangeCondition`).
- `internal/api/query_diff.go:102-104` says the lines tagged '-' are unique to a.
  The diff is greedy and can drop shared lines (`LineDiff.GreedyIsNotLongest`).
  The claim holds exactly when the lines of a that occur in b occur there in the
  same order (`LineDiff.DeletedAreUniqueIff`), and then the shared lines are as
  many as possible (`LineDiff.SharedLinesAreLongest`). Nor are '+' lines always
  unique to b (`LineDiff.InsertedCanBeShared`): both tags are right exactly when
  the lines the inputs have in common form the same sequence in both
  (`LineDiff.TagsAreRightIff`).

## Model

| member | source | states |
|---|---|---|
| `ColumnLineage.Scope.AddFrom` | internal/lineage/columns.go:133-167 | the scope becomes the old one extended by the FROM item: base table, visible CTE, aliased subselect or join |
| `ColumnLineage.Scope.ResolveColumn` | internal/lineage/columns.go:170-206 | the refs a column binds to in this scope: by qualifier, by the sole source, or every candidate marked ambiguous; the scope is untouched |
| `ColumnLineage.Projection` | internal/lineage/columns.go:65-96 | output name to upstream refs, with arms of set operations merged by name and the depth cap |
| `ColumnLineage.BuildScope` | internal/lineage/columns.go:106-131 | CTEs in order, each seeing the earlier ones, then the FROM items |
| `ColumnLineage.ResolveColumns` | internal/lineage/columns.go:38-61 | exactly the edges of the projection, those with an empty upstream name left out |
| `ColumnLineage.RefsOf` | internal/lineage/columns.go:79-95 | the union of what the column references of one expression resolve to |
| `ColumnLineage.MergeInto` | internal/lineage/columns.go:70-76 | merging an arm appends its refs under each name |
| `ResolverCases.QualifierDecides` | internal/lineage/columns.go:133-181 | SELECT q.col FROM schema.rel AS alias: one exact edge from the written schema and relation if q is the alias, or the relation where there is none, and no edge for any other q |
| `ResolverCases.SoleTableHasColumn` | internal/lineage/columns.go:182-185 | an unqualified column of one table is that table's, exact |
| `ResolverCases.EitherTableHasColumn` | internal/lineage/columns.go:195-205 | an unqualified column of two tables gives both edges, each ambiguous |
| `ResolverCases.CteIsFound` | internal/lineage/columns.go:111-146 | a FROM item is the CTE if it is spelled like it but for case and outer blanks, else a table |
| `ResolverCases.NamesMatchIff` | internal/lineage/columns.go:288 | folded names are equal if and only if they differ in case and outer blanks alone |
| `ResolverCases.PartsAreNames` | internal/lineage/columns.go:275-287 | the parts of a reference are its names in order, up to a star |
| `ResolverCases.NestingCap` | internal/lineage/columns.go:65-68 | lineage is traced through 64 nested subqueries and through no more |
| `ResolverCases.ExpressionCap` | internal/lineage/columns.go:210-213 | a reference is found under 64 nested expression nodes and under no more |
| `LineageSoundness.ColumnLineageIsSound` | internal/lineage/columns.go:38-256 | for every query of the fragment: two databases with equal row counts that agree on the upstream columns listed for an output column compute the same column, whatever the row choices, functions and ambiguous bindings |
| `LineageSoundness.SelectCovers` | internal/lineage/columns.go:65-167 | the same at every depth, through CTEs, subselects and joins, for the environment in force there |
| `LineageSoundness.FullCovers` | internal/lineage/columns.go:65-256 | the same of the resolver without blind spots, for queries of any depth and any expression nodes |
| `LineageSoundness.BoundSourceCovers` | internal/lineage/columns.go:170-206 | whatever source a name binds to, the resolver lists what that source offers |
| `LineagePrecision.NothingListedInVain` | internal/lineage/columns.go:38-256 | for every query of any depth and any expression nodes each emitted edge is needed: some target of that name has, for some choices, two values over two databases that differ in the upstream column alone |
| `LineagePrecision.LineageIsExact` | internal/lineage/columns.go:38-256 | where nothing is hidden the listed upstream columns of an output column are exactly those it depends on |
| `LineagePrecision.FullIsExact` | internal/lineage/columns.go:65-256 | what the resolver without blind spots lists is exactly what the output depends on, whatever the depth and the expression nodes |
| `LineagePrecision.SoundIff` | internal/lineage/columns.go:38-256 | for queries of any depth and any expression nodes: the lineage emitted for a column is sound for all databases and choices if and only if it lists all that the resolver without blind spots lists |
| `FullLineage.WalkedSelect` | internal/lineage/columns.go:65-256 | where nothing is hidden the two resolvers agree, at every depth and under every environment |
| `FullLineage.SelectLess` | internal/lineage/columns.go:65-256 | elsewhere the source's resolver lists no more, labels included |
| `LineagePrecision.SelectGood` | internal/lineage/columns.go:65-167 | at every depth and under every environment, each listed ref of an output is shown by one fixed set of choices |
| `UnwalkedNodes.SoundIff` | internal/lineage/columns.go:208-256 | over one table and for every expression, hidden nodes and the depth cap included: the lineage is sound for all databases and choices if and only if every column the value takes in is also referenced where columnRefsIn looks |
| `UnwalkedNodes.UnwalkedNodeIsUnsound` | internal/lineage/columns.go:208-256 | GREATEST(a) has unsound lineage, GREATEST(a) + a has not |
| `TableWalk.WalkSelect` | internal/router/table_extractor.go:48-85 | appends every relation of the select, FROM, CTEs and set-operation arms, in walking order |
| `TableWalk.WalkFrom` | internal/router/table_extractor.go:52-54 | appends the relations of one FROM item, an unnamed relation giving none |
| `TableWalk.WalkedInOrder` | internal/router/table_extractor.go:48-85 | a query with a CTE, a join and a subselect gives each relation once, as written and with its schema, FROM before WITH and left before right |
| `LineageContainment.NoInventedLineage` | internal/lineage/columns.go:38-206 | each upstream column is relation.column for a relation walkProto collects and a column name the query uses |
| `LineageCtes.ProjectionFrame` | internal/lineage/columns.go:65-167 | environments that agree on the unqualified names a query reads give it the same projection, at every depth |
| `LineageCtes.LostWithIsHarmless` | internal/lineage/columns.go:65-77 | if no arm reads one of its CTEs, projecting the arms under the WITH gives the same |
| `LineageCtes.LostWithChangesTablesIff` | internal/lineage/columns.go:70-76 | the base tables of an arm are other than under the WITH if and only if its FROM clause names a CTE that is neither visible from outside nor its own |
| `LineageCtes.LostCteIsReadAsTable` | internal/lineage/columns.go:70-76 | an arm selecting c from such a CTE x lists an exact x.c, for any anchor and any body of x |
| `LineageCtes.RecursiveLineage` | internal/lineage/columns.go:106-122 | WITH RECURSIVE r AS (anchor UNION SELECT c FROM r): the lineage is that of the anchor and of whatever r means outside, for any anchor, earlier CTEs and environment |
| `LineageCtes.SelfReferenceIsReadAsTable` | internal/lineage/columns.go:109-111 | at the top level the self-reference yields an exact edge from a base table r, whatever the anchor |
| `LineageCtes.AnchorLineageOnlyIff` | internal/lineage/columns.go:109-111 | of an anchor that selects c from base tables, with no visible CTE named r: the recursive arm adds nothing, as documented, if and only if the anchor's FROM clause is the table r alone |
| `LineageCtes.SelfReferenceIff` | internal/lineage/columns.go:109-167 | an unqualified column of an arm reading r lists r.col if and only if no enclosing, earlier or own CTE is named r, provided no schema-qualified item is spelled like r and no derived source of the arm offers r.col already |
| `LineageConfidence.SelectLabels` | internal/lineage/columns.go:65-206 | the labelled refs of a select are the labels of its derivations, each holding for every binding on the way how many sources the scope listed and how many items its FROM clause has |
| `LineageConfidence.EdgesAreLabels` | internal/lineage/columns.go:38-61 | an edge carries a label if and only if some derivation of its upstream column carries it |
| `LineageCertainty.CountIsRightIff` | internal/lineage/columns.go:133-167 | the candidates of a scope never outnumber the items of its FROM clause, and are as many if and only if none is ignored and no name repeats |
| `LineageCertainty.ConfidenceIsNeverUpgraded` | internal/lineage/columns.go:170-206 | where no scope has an ignored item or a repeated name, an edge is exact if and only if some derivation had one FROM item to bind to throughout, ambiguous if and only if one had several somewhere |
| `LineageCertainty.AmbiguousIsDeserved` | internal/lineage/columns.go:195-205 | for every query, behind an ambiguous edge some FROM clause on the way had several items |
| `LineageCertainty.CertainIff` | internal/lineage/columns.go:170-206 | for every query, a derivation had one possible item throughout if and only if it is labelled exact and every FROM clause on the way was clear: no item ignored and no derived name repeated where the name was unqualified, one item of the qualifier's name where it was qualified |
| `StrictLineage.ExactIsDeservedIff` | internal/lineage/columns.go:38-206 | for every query, an upstream column has a certain derivation if and only if a resolver that binds a name only where one FROM item can hold it lists the column; such an edge is always labelled exact |
| `StrictLineage.SelectSure` | internal/lineage/columns.go:65-206 | that strict resolver lists exactly the columns certain derivations start from, at every depth and under every environment |
| `LineageCertainty.ExactDespiteSeveralItems` | internal/lineage/columns.go:133-167 | SELECT x FROM t beside an ignored FROM item: the edge is exact, no derivation was certain |
| `Paths.ShortestIsSimple` | internal/lineage/graph.go:53-85 | a shortest walk visits no node twice, so a path guard loses no distance |
| `Paths.BallIsReach` | internal/impact/impact.go:60-91 | the ball of radius n is what walks of at most n edges reach |
| `Impact.Preview` | internal/impact/impact.go:60-91 | the hits are exactly the nodes within the depth (5 if none is given), for a dropped, renamed or retyped column along column edges alone, for any other change along table edges alone; the changed one excepted, each once, in nondecreasing order, with shortest distances, a real edge from the layer before as reason, and breaking for the five breaking kinds |
| `Impact.HitIffReachable` | internal/impact/impact.go:60-91 | a node is hit if and only if it can be reached within the depth |
| `Impact.OtherEdgesNeverCount` | internal/impact/impact.go:54-77 | rows of the other edge type change no blast radius, however they join a node to the changed one |
| `Impact.ExpandLevel` | internal/impact/impact.go:67-89 | one level of the search: the next queue is exactly the next layer |
| `Impact.FollowEdges` | internal/impact/impact.go:73-87 | the edges of one node add exactly its unseen successors |
| `LineageGraph.Evaluate` | internal/lineage/graph.go:53-85 | the recursive query stops on every graph and returns the rows of all rounds |
| `LineageGraph.RowsRecordWalks` | internal/lineage/graph.go:53-85 | every row records a walk from an anchor of its depth that repeats no node |
| `LineageGraph.SimpleWalkHasRow` | internal/lineage/graph.go:53-85 | every walk without repeats within the cap has a row |
| `LineageGraph.GuardBoundsDepth` | internal/lineage/graph.go:53-85 | by the path guard alone no row is deeper than the number of nodes |
| `LineageGraph.Graph` | internal/lineage/graph.go:90-171 | the result assembled from the rows of the requested walks: edges once, nodes at their least depth, the truncated flag |
| `LineageGraph.GraphBuilder.Run` | internal/lineage/graph.go:125-149 | rows in any order give the same depths, edges and flag |
| `LineageGraph.GraphBuilder.AddEdge` | internal/lineage/graph.go:138-147 | an edge is kept once |
| `GraphDistances.DepthsAreShortestDistances` | internal/lineage/graph.go:90-177 | at table granularity a node has depth d if and only if d is its shortest distance within the cap, the lesser of both directions, the root 0 |
| `GraphDistances.ColumnDepths` | internal/lineage/graph.go:109-136 | at column granularity the same for nodes that are no anchor, and no node has depth 0 |
| `GraphDistances.UntruncatedIsComplete` | internal/lineage/graph.go:120-149 | without the truncated flag the graph holds everything reachable at any distance |
| `GraphDistances.GraphAgreesWithPreview` | internal/lineage/graph.go:90-177 | a downstream table graph holds the root and exactly the hits of Preview at the same depth, at their hops |
| `GraphDistances.AnswerIsExact` | internal/lineage/graph.go:90-171 | from the arguments of a call: the depth is the given one, 5 for none, at most 10; a table graph holds exactly the nodes within it at their least distances; every edge is a stored row; the flag is raised only if some walk is that long |
| `GraphDistances.EdgeIsStored` | internal/lineage/graph.go:53-85 | each returned edge is a stored row of the granularity, upstream as source, downstream as target, with its type, origin and confidence |
| `GraphDistances.EdgeReturnedIff` | internal/lineage/graph.go:53-147 | an edge of these ends and origin is returned if and only if such a stored row ends a walk from an anchor, in a requested direction, of at most the cap and without repeats |
| `GraphDistances.EdgeSpansOneLevel` | internal/lineage/graph.go:90-177 | downstream both ends of an edge are in the graph, the target at most one deeper than the source |
| `GraphDistances.DirectionsAreDual` | internal/lineage/graph.go:53-85 | v is in the upstream graph of r at depth d if and only if r is in the downstream graph of v at depth d |
| `GraphDistances.ColumnAnchors` | internal/lineage/graph.go:109-115 | a column graph starts at the name itself and at whatever stands behind it and a dot, if it has no LIKE metacharacter |
| `AnchorPattern.PatternMeansPrefix` | internal/lineage/graph.go:112-115 | the LIKE expansion means "columns of f" for all names if and only if f has no %, _ or backslash |
| `PrAnalysis.MergeHits` | internal/githubapp/analysis.go:55-67 | folding one change's hits into the map takes lesser hops and the graver severity |
| `PrAnalysis.MergeChange` | internal/githubapp/analysis.go:45-68 | after every change the map has one hit per reached node, least hops over all changes, breaking if and only if a breaking change reaches it |
| `PrAnalysis.MergeOrderIrrelevant` | internal/githubapp/analysis.go:45-68 | changes with the same elements, in any order and number, give the same FQNs, hops and severities |
| `PrAnalysis.AnalyzePR` | internal/githubapp/analysis.go:45-90 | the report's hits are the merged map, its data-quality refs exactly the touched tables with a status, its conclusion that of both |
| `PrAnalysis.Conclusion` | internal/githubapp/report.go:25-45 | action required, neutral or success by breaking hits, failing tests and hits |
| `PrAnalysis.ConclusionIsMonotone` | internal/githubapp/report.go:25-45 | more hits or refs never make it milder |
| `PrAnalysis.ConclusionReflectsImpact` | internal/githubapp/report.go:25-45 | a breaking change that reaches anything asks for action; success means nothing is reached |
| `PrAnalysis.ReportedIff` | internal/githubapp/analysis.go:45-72 | from the stored rows and the changes: a node is reported with n hops if and only if n is the least number any change puts it at along edges of its own type within 5, as breaking if and only if a breaking change affects it |
| `PrAnalysis.ConclusionIff` | internal/githubapp/report.go:25-45 | from the inputs: action is required if and only if a touched table's tests fail or error, a breaking change affects anything, or three nodes are affected; success if and only if no test fails and nothing is affected |
| `PrAnalysis.LastPartDropped` | internal/githubapp/report.go:123-129 | the last dotted part is dropped if and only if two or more are before it |
| `PrAnalysis.ColumnBelongsToTable` | internal/githubapp/report.go:123-129 | schema.table.col belongs to schema.table |
| `DagLayers.LayerOf` | frontend/src/lib/dagLayout.ts:33-67 | terminates on every graph; nodes connected to the root get the net of forward and backward edges along some shortest undirected path from it |
| `DagLayers.RootIsFirstMarked` | frontend/src/lib/dagLayout.ts:36 | the root is the first node marked so, else the first node |
| `DagLayers.Search` | frontend/src/lib/dagLayout.ts:48-66 | the drain loop layers exactly the nodes connected to the root |
| `DagLayers.Adjacency` | frontend/src/lib/dagLayout.ts:39-47 | forward and backward neighbour lists |
| `DagLayout.LayoutGraph` | frontend/src/lib/dagLayout.ts:69-116 | every id is placed once, in a 210 by 46 box, 280 apart by the rank of its layer and 64 apart by its place in it; no two rectangles overlap; all lie within the reported size, which fits the layers and the fullest one |
| `DagLayout.CellsDisjoint` | frontend/src/lib/dagLayout.ts:84-95 | distinct ids never share a grid cell |
| `DagLayout.SortedLayers` | frontend/src/lib/dagLayout.ts:71-73 | the distinct layers in increasing order |
| `DagLayout.FillColumns` | frontend/src/lib/dagLayout.ts:75-80 | every id goes into the column of its layer |
| `DagLayout.Place` | frontend/src/lib/dagLayout.ts:82-95 | the position of every id is that of its cell |
| `RealSums.CauchySchwarz` | internal/ai/embeddings.go:205-220 | the square of a dot product is at most the product of the squared lengths |
| `CosineSimilarity.Cosine` | internal/ai/embeddings.go:205-220 | the loop computes dot over the product of the norms, 0 for unequal lengths, empty or zero vectors |
| `CosineSimilarity.CosineBounded` | internal/ai/embeddings.go:205-220 | the score lies in [-1, 1] |
| `CosineSimilarity.CosineSymmetric` | internal/ai/embeddings.go:205-220 | it is symmetric |
| `CosineSimilarity.CosineScaleInvariant` | internal/ai/embeddings.go:205-220 | a positive factor on a vector does not change it |
| `CosineSimilarity.CosineOfMultiple` | internal/ai/embeddings.go:205-220 | a nonzero vector scores 1 with its positive multiples |
| `CostForecast.LinearRegression` | internal/api/cost_forecast.go:129-162 | the returned line minimises the sum of squared residuals, degenerate branch included; the deviation is the root of SSR over n - 2, or 0 when n < 3 or the xs coincide |
| `CostForecast.NormalEquationsAreOptimal` | internal/api/cost_forecast.go:129-162 | a line whose residuals sum to zero and are orthogonal to the xs is least, and the only one unless all xs are equal |
| `CostForecast.DenominatorZero` | internal/api/cost_forecast.go:135-148 | the denominator is zero if and only if all xs are equal |
| `CostForecast.Forecast` | internal/api/cost_forecast.go:86-124 | the clamped projection of the least-squares line, within a band cut off at zero |
| `CostForecast.ProjectedCostBounds` | internal/api/cost_forecast.go:96-107 | the projection is at least the line's own total, with equality if and only if no day was clamped |
| `AnomalyDetection.Detect` | internal/anomaly/anomaly.go:21-48 | exactly the points whose distance from their window's mean exceeds the threshold, in order, with z-scores |
| `AnomalyDetection.DetectsOutliers` | internal/anomaly/anomaly.go:21-63 | from the series: in order of time, exactly the points further than t deviations from the mean of the w points just before them (w 14 if given less than 5, t 3 if 0), each with its z-score, below the mean as drop, else as spike |
| `AnomalyDetection.Stats` | internal/anomaly/anomaly.go:50-63 | mean and standard deviation of a window |
| `AnomalyDetection.AffineInvariance` | internal/anomaly/anomaly.go:21-63 | under a v + b with a nonzero exactly the same indices are flagged; z-scores keep size and take the sign of a |
| `AnomalyDetection.ExchangeCondition` | internal/anomaly/anomaly.go:34-45 | for a < 0 spike and drop are exchanged on every series if and only if the threshold is not negative |
| `RateLimiter.TokenBucket.Take` | internal/api/ratelimit.go:17-26 | refill up to the capacity, then spend one token if there is one |
| `RateLimiter.Limiter.Allow` | internal/api/ratelimit.go:49-59 | the request's bucket, full if new, is taken from; all other buckets stay |
| `RateLimiter.KeysAreIndependent` | internal/api/ratelimit.go:49-59 | in any interleaving a key gets the decisions it would get alone |
| `RateLimiter.WindowBound` | internal/api/ratelimit.go:17-59 | a key is allowed at most capacity + rps T requests in any window of length T |
| `RateLimiter.RefusedIff` | internal/api/ratelimit.go:17-59 | request k of a key is refused if and only if for some earlier one i the allowed from i on and this one exceed capacity + rps (tk - ti) |
| `RateLimiter.NewClientBurst` | internal/api/ratelimit.go:38-59 | from NewLimiter(n) a client's first 2n requests, 200 for a missing rate, are allowed whatever their spacing and the other clients |
| `RateLimiter.TokensBounded` | internal/api/ratelimit.go:17-26 | tokens stay in [0, capacity] over any run |
| `RateLimiter.SpacedRequestIsAllowed` | internal/api/ratelimit.go:17-59 | a request at least 1/rps after the key's previous one is never refused |
| `RateLimiter.ConstructedLimitsAreProper` | internal/api/ratelimit.go:38-47 | a constructed limiter has the given rate, 100 for a missing one, and twice that as capacity |
| `GithubStore.Store.ResolveCustomer` | internal/githubapp/store.go:26-48 | a connected repo row's tenant, else the installation's, else none; an error if and only if a needed query fails |
| `GithubStore.Store.WebhookSeen` | internal/githubapp/store.go:53-64 | first if and only if the nonempty id was not recorded, and records it |
| `GithubStore.Store.UpsertInstallation` | internal/githubapp/store.go:66-74 | inserts unclaimed, or renews the login and lifts a suspension |
| `GithubStore.Store.DeleteInstallation` | internal/githubapp/store.go:76-79 | removes the row and, by the foreign key, its repo rows |
| `GithubStore.Store.SuspendInstallation` | internal/githubapp/store.go:81-86 | sets or clears the suspension of that row only |
| `GithubStore.Store.UpsertRepo` | internal/githubapp/store.go:88-96 | inserts unconnected, or renews name and installation; refused for an unknown installation |
| `GithubStore.Store.RemoveRepo` | internal/githubapp/store.go:98-101 | removes that row only |
| `GithubStore.Store.UpsertPRAnalysis` | internal/githubapp/store.go:119-133 | inserts, or renews tenant and findings but not installation and URL |
| `GithubStore.Store.IsSuppressed` | internal/githubapp/store.go:137-147 | true if and only if the query works and the whole-PR row of that tenant, name and number exists |
| `GithubStore.Store.RecordSuppression` | internal/githubapp/store.go:151-158 | inserts unless the key is there |
| `GithubStore.Store.ClaimInstallation` | internal/api/github_app.go:50-57 | the installation's tenant becomes the caller, the row made if missing |
| `GithubStore.Store.SetRepoConnected` | internal/api/github_app.go:146-155 | flags and claims the named repos under the caller's own installations only |
| `Webhook.HasSuppressDirective` | internal/githubapp/webhook.go:280-287 | true if and only if some line, trimmed, begins with the directive |
| `Webhook.Handler.ServeWebhook` | internal/githubapp/webhook.go:54-76 | status and new tables of one request: 401 unsigned, 500 on a dedupe error, else 200, dispatched only when new |
| `Webhook.Handler.Dispatch` | internal/githubapp/webhook.go:78-98 | by event kind |
| `Webhook.Handler.OnPullRequest` | internal/githubapp/webhook.go:100-151 | resolve, check suppression, analyse, store; each failure leaves the tables as they were |
| `Webhook.Handler.OnIssueComment` | internal/githubapp/webhook.go:153-188 | a created directive on a pull request records a suppression for the resolved tenant |
| `Webhook.Handler.OnInstallation` | internal/githubapp/webhook.go:190-226 | installation and its repos upserted in order up to the first failure; deleted; suspended or not |
| `Webhook.Handler.OnInstallationRepos` | internal/githubapp/webhook.go:228-256 | upserts, then removals, up to the first failure |
| `Webhook.Handler.OnRepository` | internal/githubapp/webhook.go:258-277 | a rename or transfer renews the row |
| `WebhookRuns.DispatchedAtMostOnce` | internal/githubapp/webhook.go:61-75 | in any run a nonempty delivery id is dispatched at most once; a redelivery changes no table and is answered 200 |
| `WebhookRuns.StepWrites` | internal/githubapp/webhook.go:100-151 | a step stores an analysis if and only if it is an accepted, analysed, unsuppressed event with a tenant; other rows stay |
| `WebhookRuns.AnalysisProvenance` | internal/githubapp/webhook.go:54-151 | after any run each analysis was there before or was stored by one accepted event for the tenant its repository resolved to then, never without one |
| `WebhookRuns.SuppressionIsFinal` | internal/githubapp/store.go:137-158 | once suppressed, no run whose suppression queries work stores another analysis of that PR for that tenant |
| `WebhookRuns.CommentSettlesRun` | internal/githubapp/webhook.go:153-188 | the same from the comment onwards |
| `WebhookRuns.SilencedIff` | internal/githubapp/store.go:135-147 | a suppression silences an event if and only if it stands under the name the event carries and its query works |
| `WebhookRuns.RenameEscapesSuppression` | internal/githubapp/store.go:137-147 | a run of /uv suppress, rename, push that stores an analysis of the suppressed PR |
| `WebhookRuns.FailedDispatchIsNeverRetried` | internal/githubapp/webhook.go:61-75 | an event whose tenant lookup failed is answered 200 and every redelivery is a no-op |
| `WebhookRuns.RetryPossibleIff` | internal/githubapp/webhook.go:61-75 | a redelivery is processed if and only if the dedupe statement of the first delivery failed; no other failure leaves the event to a retry |
| `WebhookRuns.ForeignKeyKept` | internal/githubapp/store.go:76-101 | no run leaves a repo row without its installation |
| `WebhookEffects.ReposAreFiled` | internal/githubapp/webhook.go:228-256 | added repositories up to the first failing upsert get a row under the known installation with the name listed last, what it was connected to staying; then the removed ones up to the first failing delete go; no other row changes |
| `WebhookEffects.InstallationIsCreated` | internal/githubapp/webhook.go:208-217 | the installation has the login, no suspension, its earlier claim and account type; its repositories are filed up to the first failure; nothing changes when its own upsert fails |
| `WebhookEffects.InstallationIsChanged` | internal/githubapp/webhook.go:218-226 | deleting removes its row and those filed under it, suspending and its reverse set one flag, any other action or a failure changes nothing |
| `WebhookEffects.RepositoryIsRefiled` | internal/githubapp/webhook.go:258-277 | a rename or transfer files the row under the event's name and known installation, and only that row |
| `WebhookEffects.AnalysisIsStored` | internal/githubapp/webhook.go:100-151 | an opened, synchronized, reopened or edited pull request with a tenant, not suppressed, stores one row under name, number and commit, an old one keeping installation and URL; else nothing changes |
| `WebhookEffects.SuppressionIsRecorded` | internal/githubapp/webhook.go:153-188 | a created comment with the directive records repository id and author under tenant, name and number unless a row is there; nothing else changes |
| `WebhookEffects.SuppressesIff` | internal/githubapp/webhook.go:279-287 | a comment suppresses if and only if /uv suppress starts a line of it, after blanks |
| `WebhookEffects.RequestIsAnswered` | internal/githubapp/webhook.go:54-76 | 401 unsigned, 500 on a dedupe error, else 200; an accepted request records its id and kind, any other changes nothing |
| `WebhookEffects.InstallationIsClaimed` | internal/api/github_app.go:50-57 | claiming sets the tenant of that installation, in a new row if there is none, and nothing else |
| `WebhookEffects.RepoIsConnected` | internal/api/github_app.go:146-155 | connecting and disconnecting set flag and tenant of the repositories of that name under the customer's own installations, and nothing else |
| `TenancyRuns.HeldThroughRun` | internal/api/github_app.go:50-155 | whoever holds a repository holds it through every run without another claim, an uninstall or a move; no other tenant can connect it away |
| `TenancyRuns.DisconnectKeepsAnalyses` | internal/api/github_app.go:146-155 | after a disconnect and any undisturbed run, the repository's events are still stored for the tenant unless suppressed |
| `TenancyRuns.UninstallStopsAnalyses` | internal/githubapp/webhook.go:218-219 | after an uninstall, until the installation is claimed again or the repository moves, no event of it is stored for anyone |
| `TenancyRuns.SuppressionIsTenantScoped` | internal/githubapp/store.go:135-158 | a suppression of another tenant, or of one finding, decides nothing for a tenant after any run |
| `Jinja.UntaggedUnchanged` | internal/srcanalysis/dbt.go:19-36 | a pass changes nothing in a string without its kind of complete tag |
| `Jinja.SweptClean` | internal/srcanalysis/dbt.go:28-32 | the block pass leaves no complete block, the expression pass no complete expression |
| `Jinja.RenderedIsPlain` | internal/srcanalysis/dbt.go:37-70 | the output has no complete expression and no complete block |
| `Jinja.PlainIff` | internal/srcanalysis/dbt.go:37-70 | a string is left alone, and reported free of Jinja, if and only if it has no complete tag |
| `Jinja.RenderingIsAFixedPoint` | internal/srcanalysis/dbt.go:37-70 | rendering again changes nothing; the flag is true if and only if the output differs |
| `JinjaDocuments.RenderMeansDocument` | internal/srcanalysis/dbt.go:19-70 | any file of plain text and well-formed tags renders to the text with source as schema.table, ref as the model, config and blocks as a blank, expressions as null |
| `JinjaDocuments.NonBlankHidesCall` | internal/srcanalysis/dbt.go:19-36 | with any character but the five blanks between the braces and a ref call, the tag is just an expression |
| `TextLines.JoinSplit` | internal/api/query_diff.go:106-107 | joining the split lines gives the text |
| `TextLines.SplitJoin` | internal/api/query_diff.go:106-107 | splitting joined lines gives the lines |
| `LineDiff.UnifiedDiff` | internal/api/query_diff.go:105-134 | terminates and writes the greedy diff |
| `LineDiff.IndexOfFrom` | internal/api/query_diff.go:136-143 | the first occurrence from a line on, or -1 if there is none |
| `LineDiff.DiffDeterminesInputs` | internal/api/query_diff.go:102-134 | the text alone gives back both inputs by keeping one side's tags |
| `LineDiff.SharedLinesAreCommon` | internal/api/query_diff.go:102-134 | the lines tagged with a blank are a common subsequence |
| `LineDiff.CleanDiffIff` | internal/api/query_diff.go:102-134 | all lines are tagged with a blank if and only if the inputs are equal |
| `LineDiff.OneLineDiff` | internal/api/query_diff.go:105-134 | two one-line texts give the line after a blank, or the old one after - and the new one after + |
| `LineDiff.DeletedAreUniqueIff` | internal/api/query_diff.go:102-134 | no '-' line occurs in b, as documented, if and only if the lines of a that occur in b are, in order, a subsequence of b |
| `LineDiff.SharedLinesAreLongest` | internal/api/query_diff.go:102-134 | in that case no common subsequence is longer than the shared lines |
| `LineDiff.TagsAreRightIff` | internal/api/query_diff.go:102-134 | '-' lines are unique to a and '+' lines unique to b, as documented, if and only if the lines of a that occur in b are the same sequence as the lines of b that occur in a |
| `LineDiff.InsertedCanBeShared` | internal/api/query_diff.go:102-134 | a line against itself twice writes a '+' line that a has |
| `LineDiff.GreedyIsNotLongest` | internal/api/query_diff.go:105-134 | moving the first of three lines to the end makes it share one line where two could be shared |
| `SchemaDiff.IndexSnapshot` | internal/api/schema_diff.go:227-237 | tables by qualified name |
| `SchemaDiff.IndexIsLast` | internal/api/schema_diff.go:227-237 | the last table of a name is the one indexed |
| `SchemaDiff.ColMap` | internal/api/schema_diff.go:239-245 | columns by name, the last one counting |
| `SchemaDiff.DiffSnapshots` | internal/api/schema_diff.go:179-225 | each list holds exactly its entries, each once |
| `SchemaDiff.PatchIsExact` | internal/api/schema_diff.go:200-223 | a common table's old columns without the dropped, with the added and the changed types, are the new ones |
| `SchemaDiff.EmptyIff` | internal/api/schema_diff.go:179-225 | the diff is empty if and only if tables, columns and types coincide |
| `SchemaDiff.MovedTable` | internal/api/schema_diff.go:179-237 | a table moved to another schema is dropped and added under its qualified names and nothing else |
| `SchemaDiff.RetypedColumn` | internal/api/schema_diff.go:200-223 | another type is one type change from old to new under the qualified name; nullability and row counts do not matter |
| `SchemaDiff.SwapSwaps` | internal/api/schema_diff.go:179-225 | swapping the snapshots swaps added with dropped and old with new types |
| `SchemaDiff.DiffIsUnique` | internal/api/schema_diff.go:179-225 | map order changes the order of the lists only |
| `EmbeddingCodec.PackFloat32` | internal/ai/embeddings.go:185-191 | four little-endian bytes per pattern |
| `EmbeddingCodec.UnpackFloat32` | internal/ai/embeddings.go:194-203 | an error if and only if the length is not a multiple of 4, else the vector the bytes encode |
| `EmbeddingCodec.PackThenUnpack` | internal/ai/embeddings.go:184-203 | unpacking a packed vector gives it back |
| `EmbeddingCodec.UnpackThenPack` | internal/ai/embeddings.go:184-203 | packing an unpacked byte string gives it back |
| `EmbeddingCodec.DecodingIsUnique` | internal/ai/embeddings.go:194-203 | a byte string encodes at most one vector |
| `EmbeddingCodec.LittleEndianIff` | internal/ai/embeddings.go:184-203 | bytes encode a vector if and only if each word is the number of its four bytes to base 256, least significant first |
| `SliceDedupe.DedupeTables` | internal/router/table_extractor.go:142-153 | the front of the same array holds the distinct elements in first-occurrence order; the rest is as it was |
| `SliceDedupe.DedupeEdges` | internal/lineage/lineage.go:171-185 | the same over the edges with both ends |
| `SliceDedupe.DedupedIsUnique` | internal/router/table_extractor.go:142-153 | there is only one such list |
| `SliceDedupe.DedupedIsDistinct` | internal/lineage/lineage.go:171-185 | its elements are distinct |
| `SliceDedupe.Finish` | internal/lineage/lineage.go:55-67 | dedupe, then defaults in place, over one array |
| `SliceDedupe.FilledStaysDistinct` | internal/lineage/lineage.go:55-67 | on the edges statements make, filling defaults leaves no duplicates |
| `SliceDedupe.ColumnEdgesAreLabelled` | internal/lineage/columns.go:38-61 | every column edge of every query has a confidence and no origin, so defaults touch its origin alone |
| `SliceDedupe.ExtractedStaysDistinct` | internal/lineage/lineage.go:55-138 | so over the table and column edges Extract collects, the filled list has no duplicates |
| `SliceDedupe.ExtractedEvidence` | internal/lineage/lineage.go:55-67 | every edge Extract returns has both ends and runtime origin; a table edge is exact, a column edge keeps its label |
| `TableScrape.ExtractViaScrape` | internal/router/table_extractor.go:87-130 | stays in bounds, stops, and returns the distinct refs behind the keywords in order, at most 4096 |
| `TableScrape.FoundBound` | internal/router/table_extractor.go:87-104 | never more refs than iterations, whatever the keywords |
| `TableScrape.FoundIsBehindKeyword` | internal/router/table_extractor.go:105-127 | every ref is the identifier behind a keyword of the text |
| `TableScrape.NoOccurrenceMissed` | internal/router/table_extractor.go:99-128 | below the cap every occurrence of a keyword is visited or starts inside the text taken by the match before it |
| `TableScrape.ScrapeMissesNone` | internal/router/table_extractor.go:87-130 | below the cap the identifier behind every keyword of the text is among the returned refs, unless the keyword starts inside an earlier match whose identifier is |
| `TableScrape.IndexAnyDelim` | internal/router/table_extractor.go:132-140 | the length of the text before the first delimiter |
| `TableScrape.KeywordInAnyCase` | internal/router/table_extractor.go:92-106 | the five keywords are found between blanks in any case |
| `TableScrape.IdentifierBehind` | internal/router/table_extractor.go:108-112 | blanks and parentheses before the identifier are skipped, it ends at a delimiter or the end, quotes around it are dropped |
| `TableScrape.DottedParts` | internal/router/table_extractor.go:117-125 | two parts are schema and table, three lose the project, one or more than three are left whole |
| `UdfRegistry.Registry.Register` | internal/workers/udf_registry.go:66-88 | refuses in the source's order, else appends the completed spec |
| `UdfRegistry.Registry.Append` | internal/workers/udf_registry.go:86-87 | append into spare room or a new buffer: only this customer's list grows |
| `UdfRegistry.Registry.List` | internal/workers/udf_registry.go:91-98 | a fresh copy of the list, outside the registry's own buffers |
| `UdfRegistry.Registry.Delete` | internal/workers/udf_registry.go:103-119 | removes the name from every customer, in place, and says whether there was one |
| `UdfRegistry.FilterInPlace` | internal/workers/udf_registry.go:108-115 | the front of the same buffer holds the specs that stay, in order |
| `UdfRegistry.PerformAll` | internal/workers/udf_registry.go:66-119 | any run of calls takes the registry through the steps of the specification |
| `UdfRegistry.ListThenRun` | internal/workers/udf_registry.go:66-119 | a list handed out keeps its contents through every later run of calls, in-place deletes included |
| `UdfRegistry.RegistryFromRun` | internal/workers/udf_registry.go:66-119 | the registry driven from its constructor through any run represents the ideal map |
| `UdfRegistry.RegistryIsMap` | internal/workers/udf_registry.go:66-119 | over any run the state is a map from (slug, name) to spec, names unique per customer |

## Left out

- Floating-point rounding, overflow, NaN and infinities: numbers are reals, so the numeric results hold up to rounding.
- The pg_query parser, Deparse and the path from SQL text to the tree: lineage starts at the tree, and containment compares with walkProto on the same tree.
- LineageSoundness.ColumnLineageIsSound: like LineagePrecision.LineageIsExact, covers base tables, aliased subselects, joins and CTEs with folded names, distinct aliases and named targets; stars, sublinks, set operations, unnamed expressions, recursive CTEs and FROM functions are outside, as the source documents them as best effort; for unwalked nodes and the depth cap see LineagePrecision.SoundIff.
- LineagePrecision.SoundIff: as in UnwalkedNodes.SoundIff, subqueries used as values are left out, as they have no meaning in QuerySemantics.
- LineageContainment.NoInventedLineage: asks that relations have names, which the parser guarantees and walkProto relies on.
- Order and repetition of refs, edges and graph nodes that come out of Go maps: modelled as sets or as any order.
- Unicode: trimming and case folding are those of ASCII; `strings.ToUpper` keeps lengths.
- LATERAL, USING, NATURAL joins and join aliases: the source does not look at them either.
- Edge path strings of `frontend/src/lib/dagLayout.ts`: the numbers they are printed from are the proved positions.
- TableScrape.ExtractViaScrape: exact for the text as given; keywords are matched only between blanks, so one at the start of a line is not found, as in the source.
- SQL timestamps (`created_at`, `updated_at`, `received_at`, the time of a suspension) and the reaping of old delivery ids: nothing modelled reads them.
- Foreign keys to the customers table and deletion of customers: customers are plain names here; the key from repos to installations is modelled.
- A statement that commits although the client sees an error: a failed statement is taken to change nothing.
- Concurrency between requests: each webhook request, registry call and limiter call is one step; the statements of two requests do not interleave.
- Signature verification, JSON decoding, the GitHub client, posting comments and check runs, the push hook and the diff parser: inputs of the model.
- UdfRegistry.Registry.Append: the growth of a Go slice is taken as doubling; nothing proved depends on it.
- Rendering of comments and check-run payloads, `shortSHA`, emojis, `normalizeDialect`, `QueryHash`: text formatting or hashing.
- Connectors, LLM calls, Redis, DuckDB workers, Iceberg writes, authentication, the React pages and the CLI: input and output around the modelled core.
