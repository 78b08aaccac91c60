# contours-viewer: the discrete core, modelled in Dafny

contours-viewer measures the shape of a triangulated pebble. It does this by
sweeping concentric spheres around one or more centers. Each sweep cuts the
surface into level subranges. The pieces become a *subrange graph*, which is
collapsed into a directed *level graph*. On the level graph two searches count
stable (S) and unstable (U) equilibria for a minimum area, and a minor is
contracted into a *Reeb graph*. The per-center (S, U) pairs are reduced by an
aggregation rule. The sweep configurations form a parameter tree: generator →
level count → area ratio → aggregation. The tree is read from and written to a
text stream and a CSV batch table.

This project models that discrete pipeline. The geometry is an input.

| module (file) | what it models |
|---|---|
| `Options` (options.dfy) | the `Option` type used for failure paths |
| `Keywords` (keywords.dfy) | classification of aggregation keywords and the keywords the writer emits |
| `SuPairs` (su_pair.dfy) | `SUPair`: the conversion from counts, `+`, `/`, and the AVERAGE reduction |
| `Reduction` (reduction.dfy) | `min_element`/`max_element` under the (S, U) and (U, S) orders, and the aggregation switch |
| `LevelSpec`, `LevelFacts` (level_spec.dfy, level_facts.dfy) | the level graph as a value, plus the specification of `subtree_area`, of `search` and of `get_SU`, with their properties |
| `MinorSpec`, `Contractions` (minor_spec.dfy, contraction.dfy) | the filtered graph and the chain contraction of `minor` |
| `ReebGraphs` (reeb_graph.dfy) | the `ReebGraph` class |
| `Components`, `SubrangeGraphs` (components.dfy, subrange_graph.dfy) | same-level connected components, the `opposite` table, the match-or-insert table of `connect_neighbor`/`merge`, `minor_graph`, and the `SubrangeGraph` class |
| `LevelGraphs` (level_graph.dfy) | the `LevelGraph` class: `add_vertex`, `add_edge` on ordered edge sets, `reset`, `get_SU`/`search`, the `su_visitor` sweeps and `minor` |
| `SweepTree`, `TreeEntries` (sweep_tree.dfy, tree_entries.dfy) | the parameter tree, generator equality, the aggregation order, and the find-or-insert of configurations |
| `Reports`, `Computations` (reports.dfy, computation.dfy) | the results matrix, the aggregation loops, and `Computation::run` with cancellation and graph retention |
| `Execution` (execute.dfy) | `execute`: reachability marking, `set_stable`, the results matrix, the Reeb and Morse output gating, and the saver calls |
| `ParameterStream` (parameter_stream.dfy) | `Parameters`: its constructors, `operator>>`, `operator<<` and `first_level_count` |
| `BatchTable` (batch.dfy) | `load_batch_file` and `save_batch_file` on a table of cells |

## Modelling choices

- The model follows the code, including where it is easy to misread:
  - `search` counts the recorded sets that include no other recorded set,
    i.e. the inclusion-*minimal* ones.
  - `subtree_area` adds a vertex once per path. Its `visited` set is filled
    but never read.
  - When `run` is cancelled, `m_su` keeps the pairs of the generators finished
    before.
  - `emplace` on a key that already waits leaves the table unchanged.
- The Boost and CGAL behaviour the code relies on is stated explicitly:
  - the `setS` out-edge order is by target;
  - the `vecS` Reeb graph allows parallel edges;
  - `connected_components` numbers components by their smallest vertex;
  - the surface mesh pairs half-edges `2k`/`2k+1` as opposites.
- Areas, levels and ratios are exact `real`s and `int`s.
- Unordered-map iteration order is a parameter (`order`).
- The cancel predicate is a function from the poll index to its answer.

## Model

| member | source | states |
|---|---|---|
| Keywords.ClassifyPrecedence | parameters.cpp:22-33 | "atlag" wins over every other word; "smin" wins when "atlag" is absent; FIRST exactly when none of the five words occurs |
| Keywords.ClassifyKeywordOf | parameters.cpp:88-106 | classifying the keyword written for an aggregation gives that aggregation back |
| SuPairs.AverageOfCopies | result.hpp:14-19 | summing k copies of a pair and dividing by k gives the pair back |
| SuPairs.TotalBoundsS | result.hpp:14-16 | the S total of the centers lies between the count times the lowest and the count times the highest S |
| SuPairs.TotalBoundsU | result.hpp:14-16 | the same for the U total |
| SuPairs.AverageBounds | computation.cpp:206-208 | the AVERAGE pair lies, component by component, between the smallest and the largest count of any center |
| Reduction.ArgMin | computation.cpp:209-221 | `min_element` returns the first index that no element is strictly below, under the chosen lexicographic order: every earlier element is strictly above it |
| Reduction.ArgMax | computation.cpp:212-228 | `max_element` returns the first index that no element is strictly above: every earlier element is strictly below it |
| Reduction.Aggregate | computation.cpp:202-229 | FIRST is center 0; AVERAGE is the mean; SMIN/SMAX/UMIN/UMAX report the pair of some center whose S (SMIN, SMAX) or U (UMIN, UMAX) is the smallest/largest of all centers |
| Reduction.AggregateFirstExtreme | computation.cpp:209-228 | the center SMIN/SMAX report is the first minimum/maximum under the (S, U) order, the one UMIN/UMAX report the first under the (U, S) order |
| Reduction.FirstExtremeUnique | computation.cpp:209-228 | only one index is the first minimum, and only one the first maximum, so each rule picks a single center |
| Reduction.TiesBroken | computation.cpp:209-228 | a tie on the compared count is broken by the other count: SMIN over (1, 5), (1, 2) reports (1, 2); UMAX over (1, 4), (3, 4) reports (3, 4) |
| Reduction.AggregateOfCopies | computation.cpp:202-229 | when all centers agree, every rule reports their pair |
| Reduction.AverageBetweenExtremes | computation.cpp:206-228 | the SMIN and SMAX pairs bound the average's S; the UMIN and UMAX pairs bound its U |
| LevelSpec.Select | levelgraph.hpp:43 | the out-edges of a vertex are exactly its edges, listed in increasing order |
| LevelSpec.WalkEnd | levelgraph.cpp:27-39 | the walk of `search` ends at an existing vertex when it records one |
| LevelSpec.Mark | levelgraph.cpp:53-61 | writing a type to a set of edges changes exactly those edges |
| LevelFacts.UpstreamIsReach | levelgraph.cpp:13-22 | the `visited` set of `subtree_area(v)` is exactly the set of vertices from which v is reachable |
| LevelFacts.UpstreamBelow | levelgraph.cpp:13-22 | every other member of that set lies strictly below v and has an out-edge back into the set |
| LevelFacts.ReachTrans | levelgraph.cpp:13-22 | reachability is transitive |
| LevelFacts.DiamondCountsTwice | levelgraph.cpp:13-22 | in a diamond whose only area is at its bottom, the subtree area at the top is 2.0 while the upstream set holds each vertex once |
| LevelFacts.WalkEndStops | levelgraph.cpp:27-38 | a walk stops only at a vertex with out-degree 1 whose subtree area reaches the threshold, and that vertex is reachable from the start |
| LevelFacts.RecordedMembers | levelgraph.cpp:27-40 | every recorded set is the upstream set of the walk end of some root |
| LevelFacts.ClosesOnlyAtEnd | levelgraph.cpp:53-61 | within an upstream set, exactly the walk end has no out-edge back into the set |
| LevelFacts.MarkedEdges | levelgraph.cpp:53-61 | an edge is retyped exactly when the upstream set of its source was counted |
| LevelFacts.SearchMarksWalkEnds | levelgraph.cpp:27-61 | `search` retypes exactly the out-edges of vertices whose upstream set is an inclusion-minimal recorded set |
| LevelFacts.CountAtMostRoots | levelgraph.cpp:26-64 | the count of `search` is at most the number of vertices without in-edges |
| MinorSpec.Filtered | levelgraph.cpp:124-130 | the filtered graph has the same vertices and holds exactly the accessible edges |
| MinorSpec.FilteredLayered | levelgraph.cpp:124-130 | dropping edges keeps a layered graph layered |
| MinorSpec.IncidentInFiltered | levelgraph.cpp:115-130 | a vertex has an edge in the filtered graph exactly when one of its edges is accessible |
| MinorSpec.RootsOf | levelgraph.hpp:91-97 | `root_vertices` lists exactly the kept vertices without in-edges, in increasing order |
| MinorSpec.ChainEnd | levelgraph.cpp:147-149 | following a chain ends at a vertex outside any chain that is reachable from the start, and it keeps an in-edge when the start had one |
| MinorSpec.ContractionSkipsChains | levelgraph.cpp:145-162 | no Reeb vertex stands for a vertex inside a chain, and every Reeb edge follows a non-empty path of the filtered graph |
| Contractions.WalkChain | levelgraph.cpp:147-149 | the chain walk returns the chain end |
| Contractions.FindOrAddVertex | levelgraph.cpp:151-157 | a chain end that already has a Reeb vertex is reused; otherwise it is numbered next, at its Reeb level, and queued when it has in- and out-edges |
| Contractions.LinkEdge | levelgraph.cpp:146-158 | one out-edge adds exactly the Reeb edge from its vertex to the end of its chain |
| Contractions.LinkNext | levelgraph.cpp:146-158 | linking the next out-edge extends the edge list by that edge's Reeb edge, after those of the earlier out-edges |
| Contractions.ExpandJunction | levelgraph.cpp:146-159 | a queue turn appends exactly one Reeb edge per out-edge of the front vertex, in out-edge order, each to the end of that edge's chain |
| Contractions.QueuedMembers | levelgraph.cpp:155-156 | a vertex is queued exactly when it has both an in-edge and an out-edge |
| Contractions.UnnumberedShrinks | levelgraph.cpp:145-162 | each queue turn either numbers a new vertex or leaves the numbering unchanged, so the queue loop ends |
| Contractions.ContractionDone | levelgraph.cpp:145-164 | when the queue is empty the Reeb graph is the contraction of the filtered graph, edge list included |
| Contractions.NumberJunctions | levelgraph.cpp:132-143 | the Reeb graph starts with one vertex per junction, at the junction's level, and no edges |
| Contractions.Contract | levelgraph.cpp:132-164 | the result is the contraction: the junctions first, every vertex at its Reeb level, and the edge list is one Reeb edge per out-edge of each expanded vertex, in queue order, parallel edges kept |
| MinorSpec.ExpansionSize | levelgraph.cpp:145-162 | expanding a list of vertices adds exactly as many Reeb edges as they have out-edges |
| MinorSpec.IndexInPrefix | levelgraph.cpp:151-157 | numbering more vertices never changes the Reeb vertex of one already numbered |
| ReebGraphs.Targets | reebgraph.hpp:50-52 | the targets listed are exactly those of the vertex's edges |
| ReebGraphs.AppendEdge | reebgraph.cpp:16-19 | a new edge extends the out-list of its source and the in-list of its target by exactly that edge; every other list is unchanged |
| ReebGraphs.ParallelEdgesCount | reebgraph.hpp:13 | adding an edge that already exists still raises the out-degree of its source |
| ReebGraphs.Grown | reebgraph.cpp:16-19 | the vertex list grows with level-0 vertices up to both endpoints and keeps the old levels |
| ReebGraphs.ReebGraph.constructor | reebgraph.cpp:6-9 | exactly `vertex_count` vertices and no edges |
| ReebGraphs.ReebGraph.AddVertex | reebgraph.cpp:11-14 | one vertex with the given level, whose index is the old vertex count; edges unchanged |
| ReebGraphs.ReebGraph.AddEdge | reebgraph.cpp:16-19 | the edge is appended even when it exists; vertices grow as `Grown` says |
| ReebGraphs.ReebGraph.SetLevel | reebgraph.hpp:57-62 | only vertex v's level changes, and reading it back gives the new level |
| ReebGraphs.ReebGraph.Adjacent | reebgraph.hpp:50-52 | the targets of v's out-edges, one per edge |
| ReebGraphs.ReebGraph.AdjacentIn | reebgraph.hpp:53-56 | the sources of v's in-edges, one per edge |
| Components.CompClosed | subrangegraph.cpp:73-78 | a component holds its vertex, and no same-level edge leaves it |
| Components.CompLeast | subrangegraph.cpp:73-78 | a component is the least closed set holding its vertex |
| Components.CompSame | subrangegraph.cpp:73-78 | every vertex of a component has that same component |
| Components.EdgeComp | subrangegraph.cpp:73-78 | the two ends of a same-level edge share a component |
| Components.Rep | subrangegraph.cpp:78 | the representative is the smallest vertex of the component |
| Components.LabelBound | subrangegraph.cpp:78 | every component number is below the level's component count |
| Components.LabelSame | subrangegraph.cpp:78 | two vertices of one level get the same number exactly when they share a component |
| Components.LabelOnto | subrangegraph.cpp:78 | every number below the count belongs to some vertex of that level |
| Components.EdgeLabel | subrangegraph.cpp:78 | the two ends of a same-level edge get the same number |
| Components.AreaKept | subrangegraph.cpp:80-92 | the component areas of a level add up to the areas of all vertices of that level |
| SubrangeGraphs.Opposite | subrangegraph.hpp:6-8 | a role equals its opposite exactly when it is BOTH |
| SubrangeGraphs.OppositeInvolution | subrangegraph.hpp:6-8 | looking up the opposite twice gives the role back |
| SubrangeGraphs.OppositeHalfedge | subrangegraph.cpp:32 | the opposite half-edge is a different half-edge of the same pair |
| SubrangeGraphs.Partner | subrangegraph.cpp:32 | the key a crossing pairs with differs from it and has the same sphere |
| SubrangeGraphs.PartnerInvolution | subrangegraph.cpp:32 | the partner of the partner is the key itself |
| SubrangeGraphs.ConnectFacts | subrangegraph.cpp:28-39 | an edge is added exactly when the partner waits; it joins the partner's vertex to v and removes the partner; otherwise the key is added; nothing else changes |
| SubrangeGraphs.ConnectOneOrOther | subrangegraph.cpp:32-38 | each call adds one waiting entry and no edge, or removes one entry and adds one edge, or, for a key already waiting, changes nothing |
| SubrangeGraphs.ConnectKeepsUnpaired | subrangegraph.cpp:28-39 | the table never holds two partners at once |
| SubrangeGraphs.ReplayUnpaired | subrangegraph.cpp:45-54 | replaying entries keeps the table free of waiting partners |
| SubrangeGraphs.ReplayJoinsHalves | subrangegraph.cpp:45-54 | every edge the replay adds joins a vertex of this graph to a renumbered vertex of the other |
| SubrangeGraphs.Shift | subrangegraph.cpp:42-44 | copied edges have both ends moved up by the old vertex count |
| SubrangeGraphs.MinorVertexAt | subrangegraph.cpp:72-92 | component c of level l becomes a level-graph vertex with level l and the component's summed area |
| SubrangeGraphs.MinorSame | subrangegraph.cpp:78-86 | two vertices share a level-graph vertex exactly when they have the same level and share a component |
| SubrangeGraphs.MinorLayered | subrangegraph.cpp:94-107 | the images of the crossing edges form a layered graph: every edge climbs a level |
| SubrangeGraphs.ImagesMember | subrangegraph.cpp:94-107 | the level-graph edges are exactly the images of the crossing edges |
| SubrangeGraphs.SubrangeGraph.constructor | subrangegraph.hpp:42-48 | an empty graph with nothing waiting |
| SubrangeGraphs.SubrangeGraph.AddVertex | subrangegraph.cpp:10-14 | a new vertex with the given level and area 0; nothing else changes |
| SubrangeGraphs.SubrangeGraph.AddEdge | subrangegraph.cpp:15-17 | vertices grow to hold both ends, and one edge without an arc is appended |
| SubrangeGraphs.SubrangeGraph.AddArcEdge | subrangegraph.cpp:18-22 | the same, with the edge carrying the arc |
| SubrangeGraphs.SubrangeGraph.SetArea | subrangegraph.cpp:24-26 | only v's area changes |
| SubrangeGraphs.SubrangeGraph.Pair | subrangegraph.cpp:32-38 | the table and edges follow one match-or-insert step |
| SubrangeGraphs.SubrangeGraph.ConnectNeighbor | subrangegraph.cpp:28-39 | the crossing's key pairs with the opposite half-edge and opposite role, or it waits; levels and areas are unchanged |
| SubrangeGraphs.SubrangeGraph.Merge | subrangegraph.cpp:41-56 | the vertex count becomes the sum; the other graph's vertices follow, with its edges renumbered; then its waiting entries are replayed with their renumbered vertices |
| SubrangeGraphs.SubrangeGraph.ReplayEntries | subrangegraph.cpp:45-54 | the table and the added edges are those of the replay |
| SubrangeGraphs.SubrangeGraph.CopyGraph | subrangegraph.cpp:42-44 | the other graph's vertices and renumbered edges are appended; the table is untouched |
| SubrangeGraphs.SubrangeGraph.MinorGraph | subrangegraph.cpp:65-109 | one vertex per component of each level below count, with its level and summed area; the edges are exactly the images of the crossing edges; the result is layered |
| SubrangeGraphs.AddLevel | subrangegraph.cpp:72-93 | one level's component loop appends that level's component vertices with their areas |
| SubrangeGraphs.AddCrossings | subrangegraph.cpp:94-107 | the edge loop adds exactly the images of the crossing edges and keeps the vertices |
| LevelGraphs.LowerBound | levelgraph.hpp:105-109 | the insertion position in the sorted edge set |
| LevelGraphs.LowerBoundFinds | levelgraph.hpp:105-109 | in a sorted edge list an edge is present exactly when it sits at its lower bound |
| LevelGraphs.InsertSorted | levelgraph.hpp:105-109 | inserting at the lower bound keeps the edge list sorted |
| LevelGraphs.AddEndShape | levelgraph.hpp:105-109 | after `add_edge` the edge set holds exactly the old edges and the new one, and the graph is well formed |
| LevelGraphs.SubtreeArea | levelgraph.cpp:13-22 | the area is the per-path subtree sum, and `visited` gains exactly the upstream set |
| LevelGraphs.WalkFrom | levelgraph.cpp:28-39 | one root's walk adds at most its recorded set |
| LevelGraphs.CollectMinAreas | levelgraph.cpp:26-40 | `min_areas` is the set of sets recorded by the walks from all roots |
| LevelGraphs.CountIncluded | levelgraph.cpp:44-50 | `includes` is the number of recorded sets contained in s1 |
| LevelGraphs.IncludesOnce | levelgraph.cpp:43-51 | `includes == 1` exactly when s1 is inclusion-minimal |
| LevelGraphs.CountInside | levelgraph.cpp:54-58 | `asdf` is zero exactly when no out-edge of u leads into the set |
| LevelGraphs.MarkOut | levelgraph.cpp:59-60 | exactly the out-edges of u get the new type |
| LevelGraphs.MarkSet | levelgraph.cpp:53-61 | exactly the out-edges of the members closing s1 get the new type |
| LevelGraphs.CountSet | levelgraph.cpp:43-62 | one more set is counted and marked exactly when it is minimal |
| LevelGraphs.CountMinimal | levelgraph.cpp:42-63 | the count is the number of minimal sets; the types are marked for exactly those sets |
| LevelGraphs.Search | levelgraph.cpp:24-65 | `search` returns the specified count and retypes exactly the specified edges |
| LevelGraphs.EdgesOfType | levelgraph.hpp:84-90 | exactly the edges of the given type, in edge order |
| LevelGraphs.InAndOutEdges | levelgraph.hpp:116-118 | exactly the edges touching v; their number is the in-degree plus the out-degree |
| LevelGraphs.SuVisit | levelgraph.hpp:52-76 | `depth_first_visit` with an `su_visitor` leaves exactly the colours, flag and counters of the reference visit `VisitSpec` |
| LevelGraphs.SuEdge | levelgraph.hpp:57-76 | one out-edge: a back edge only finishes; a tree or forward/cross edge turns `found` on for a watched edge, counts while it is on, visits a white target, then finishes; as `EdgeSpec` |
| LevelGraphs.SweepRoot | levelgraph.cpp:92-97 | one root's visit starts with all vertices white and `found` off; as `RootSpec` |
| LevelGraphs.Sweep | levelgraph.cpp:91-108 | the sweep is the visits from the sources of the watched edges in edge order; as `SweepOver` |
| LevelGraphs.SweptCounted | levelgraph.hpp:57-76 | after a sweep from zero every edge of the watched type has a nonzero counter |
| LevelGraphs.SweptCovered | levelgraph.hpp:57-76 | after a sweep from zero every edge with a nonzero counter is watched or leaves a vertex reachable from the target of a watched edge |
| LevelGraphs.SweptFacts | levelgraph.cpp:91-108 | both facts for all edges at once |
| MinorSpec.VisitColor | levelgraph.hpp:52-76 | a visit from a white vertex blackens it, changes no other vertex between gray and not gray, and never switches `found` on for its caller |
| MinorSpec.EdgesColor | levelgraph.hpp:52-76 | the out-edge loop of a gray vertex keeps the gray vertices and does not switch `found` on |
| MinorSpec.EdgeColor | levelgraph.hpp:57-76 | the target of an out-edge of the current vertex is never gray, so the back-edge branch is not taken on a layered graph |
| MinorSpec.VisitGrow | levelgraph.hpp:57-62 | a visit only raises counters, and only of watched edges or of edges leaving a closed covered set |
| MinorSpec.EdgesGrow | levelgraph.hpp:57-62 | the same for the out-edge loop |
| MinorSpec.EdgeStep | levelgraph.hpp:57-76 | one out-edge keeps the loop's assumptions, grows the counters that way and counts itself when watched |
| MinorSpec.EdgeCount | levelgraph.hpp:57-76 | the same for one edge event |
| MinorSpec.VisitCounted | levelgraph.hpp:57-62 | a visit counts every watched out-edge of its start vertex |
| MinorSpec.EdgesCounted | levelgraph.hpp:57-62 | the out-edge loop counts every watched edge it handles |
| MinorSpec.RootCount | levelgraph.cpp:92-97 | a root's visit counts the root edge and grows the counters only as `Grows` allows |
| MinorSpec.SweepOverCount | levelgraph.cpp:91-108 | the visits from all roots count every root and grow the counters only as `Grows` allows |
| MinorSpec.CoveredClosed | levelgraph.hpp:57-62 | the vertices reachable from the target of a watched edge form a closed set |
| LevelGraphs.LevelGraph.constructor | levelgraph.hpp:43-45 | an empty graph |
| LevelGraphs.LevelGraph.Clone | computation.cpp:187-189 | a fresh graph with the same vertices, edges and properties |
| LevelGraphs.LevelGraph.AddVertex | levelgraph.hpp:99-104 | a new vertex with exactly the given level and area, not accessible; nothing else changes |
| LevelGraphs.LevelGraph.AddEdge | levelgraph.hpp:105-109 | an existing edge gains the arc and nothing else changes; otherwise a SIMPLE edge with cleared counters is inserted at its sorted place; vertices grow to hold both ends |
| LevelGraphs.LevelGraph.ResetEdges | levelgraph.hpp:36-40 | counters are cleared and flags are off on every edge; arcs and types are untouched |
| LevelGraphs.LevelGraph.GetSU | levelgraph.cpp:67-73 | the pair is the counts of the forward and the reverse search; the types are all reset and then marked by both searches; nothing else changes |
| LevelGraphs.LevelGraph.Minor | levelgraph.cpp:80-165 | the counters are exactly those the forward STABLE and the reverse UNSTABLE sweeps leave, so every edge of the watched type is counted and every counted edge is watched or below one; accessibility follows the counters; the result is the contraction of the filtered graph; the shape is unchanged |
| LevelGraphs.LevelGraph.MarkAccessible | levelgraph.cpp:87-122 | the counters are exactly those the forward STABLE and the reverse UNSTABLE sweeps leave, so every edge of the watched type is counted and every counted edge is watched or below one; an edge is accessible exactly when both counters are nonzero, a vertex exactly when one of its edges is; the shape is unchanged |
| LevelGraphs.MarkAccessibleEdges | levelgraph.cpp:110-113 | an edge is accessible exactly when both of its counters are nonzero |
| LevelGraphs.MarkAccessibleVertices | levelgraph.cpp:115-122 | a vertex is accessible exactly when one of its edges is |
| LevelGraphs.HasAccessibleEdge | levelgraph.cpp:116-121 | the scan finds an accessible incident edge exactly when one exists |
| SweepTree.AggregationIndex | model/parameters.hpp:42-43 | the index is below 6, and it is 0 exactly for FIRST |
| SweepTree.AggregationOrderIsBijective | model/parameters.hpp:42-43 | index and aggregation are in one-to-one correspondence |
| SweepTree.SameGeneratorIsEquality | model/parameters.hpp:36-39 | the field-wise generator comparison is exactly equality |
| SweepTree.Single | parameters.hpp:56-58 | a node with the value and exactly one child |
| SweepTree.Find | parameters.cpp:38-65 | the first sibling holding the value, or the length when there is none |
| TreeEntries.Place | parameters.cpp:37-70 | adding a configuration keeps every existing node and appends at most one new sibling per level |
| TreeEntries.PlaceEntries | parameters.cpp:37-70 | adding a configuration adds exactly its entry, unless the loader finds it already present |
| TreeEntries.PlaceEntriesKeep | parameters.cpp:37-70 | without the duplicate check every configuration adds its entry |
| TreeEntries.PlaceAllEntries | parameters.cpp:6-71 | the stream reader's entries are the old ones plus all rows read, duplicates included |
| TreeEntries.PlaceGood | parameters.cpp:37-70 | no node repeats among its siblings, and no node is left without children |
| TreeEntries.PlaceAllGood | parameters.cpp:6-71 | the same after any sequence of rows |
| TreeEntries.FoundIff | parameters.cpp:38-50 | on such a tree the first-match lookup finds a configuration exactly when it is an entry |
| TreeEntries.PlaceUnique | model/batch.cpp:87-107 | the loader's rule leaves the configuration present and never lists one twice |
| TreeEntries.Locate | parameters.cpp:38-45 | the search loop returns the first matching sibling |
| TreeEntries.Insert | parameters.cpp:37-70 | the level-by-level find-or-insert is `Place` |
| Reports.NewMatrix | computation.cpp:26-34 | one row per level count and one column per area ratio, with `centers` slots of (0, 0) |
| Reports.RatioConfigs | computation.cpp:200-229 | one report per aggregation entry, each the reduction that entry names |
| Reports.ReportedConfigs | computation.cpp:198-232 | a generator reports one pair per configuration of its subtree, in tree order |
| Reports.CollectRatio | computation.cpp:200-230 | the innermost aggregation loop produces the ratio's reports |
| Reports.CollectLevel | computation.cpp:199-231 | the area-ratio loop produces the level count's reports |
| Reports.Collect | computation.cpp:198-232 | the aggregation loops produce the generator's reports |
| Computations.Trunc | computation.cpp:59-63 | `static_cast<int>` truncates toward zero |
| Computations.LastSphere | computation.cpp:61-64 | the last sphere is the farthest point's slice, clamped to the level count |
| Computations.Spheres | computation.cpp:42-51 | n + 1 squared radii: one per level, then the guard sphere |
| Computations.GuardOutside | computation.cpp:48-49 | the guard sphere lies beyond every level sphere |
| Computations.ConnectLevels | subrangegraph.cpp:28-39 | a step keeps waiting crossings on their own sphere's vertices and adds no edge across levels |
| Computations.ReplayLevels | subrangegraph.cpp:45-54 | the same for a whole replay |
| Computations.MergeSound | subrangegraph.cpp:41-56 | merging graphs from the face loop keeps every crossing edge carrying its arc |
| Computations.FoldSound | computation.cpp:169-173 | combining such graphs gives such a graph holding all their vertices |
| Computations.CombineSound | computation.cpp:169-173 | `combine` on face-loop graphs gives a graph `minor_graph` can dereference |
| Computations.SoundMinor | computation.cpp:178 | its level graph is layered, with levels below the level count |
| Computations.KeysOf | subrangegraph.cpp:45 | the table's keys in some iteration order |
| Computations.Build | computation.cpp:56-57 | a thread-local graph as an object |
| Computations.MergeNext | computation.cpp:169-173 | one `combine` step is `merge` with the table's iteration order |
| Computations.Combine | computation.cpp:169-173 | `combine` is the sequential fold of `merge` |
| Computations.SU | computation.cpp:182-183 | the slot receives the number of inclusion-minimal recorded upstream sets of the forward and of the reverse search, each at most the number of roots in its direction |
| Computations.FillColumn | computation.cpp:179-184 | slot c of each ratio's cell gets that ratio's counts; the other slots stay |
| Computations.AllReportsConfigs | computation.cpp:198-232 | a run reports exactly one pair per configuration of the tree, in tree order |
| Computations.Computation.constructor | computation.cpp:14-15 | empty outputs and no polls |
| Computations.Computation.Poll | computation.cpp:53-54 | the answer is that of the next poll |
| Computations.Computation.Sweep | computation.cpp:41-178 | polls as the source makes them; when not cancelled, a fresh layered level graph with levels 0..n |
| Computations.Computation.Ratio | computation.cpp:182-185 | the counts of `get_SU`, with the edges retyped as `SUTypes`; then the Reeb graph of `minor`: the counters equal the sweeps (`Swept`), accessibility follows them, and the fresh Reeb graph is the contraction of the filtered graph; the shape and arcs stay |
| Computations.Computation.RunRatios | computation.cpp:179-191 | slot c of every ratio's cell is filled; graphs are kept when asked, in equal numbers |
| Computations.Computation.Keep | computation.cpp:187-190 | one more level graph, as a copy, and one more Reeb graph |
| Computations.Computation.RunLevel | computation.cpp:40-191 | the sweep, then the ratio loop for one level count |
| Computations.Computation.RunCenter | computation.cpp:36-196 | every level count of center c fills slot c; other centers' slots are unchanged |
| Computations.Computation.RunCenters | computation.cpp:26-196 | the center loop over a fresh matrix fills every slot |
| Computations.Computation.RunGenerator | computation.cpp:22-235 | a finished generator appends exactly its reported pairs |
| Computations.Computation.Run | computation.cpp:17-238 | returns false at the first yes; the su output is exactly the pairs of the generators finished, in order; graphs are kept only for single-center generators |
| Execution.ReachesIsWalk | model/execute.hpp:143-159 | recursive reachability is exactly reachability along a walk |
| Execution.IncidentComplete | model/execute.hpp:143-159 | every edge touching a vertex is listed among its in- or out-edges |
| Execution.Mark | model/execute.hpp:143-159 | exactly the edges reachable from e are flagged in addition; no flag is cleared |
| Execution.MarkAll | model/execute.hpp:148-159 | the marking loops flag exactly what the starting edges reach |
| Execution.CoversUpstream | model/execute.hpp:174-179 | the arcs `set_stable` labels are exactly those of the edges upstream of e |
| Execution.SetStable | model/execute.hpp:174-179 | exactly those arcs get the value; the others are unchanged |
| Execution.Results | model/execute.hpp:47-54 | the matrix has one slot per center for every level count and area ratio |
| Execution.GeneratorSummaryConfigs | model/execute.hpp:686-729 | one reported pair per aggregation entry of the generator |
| Execution.SummaryConfigs | model/execute.hpp:44-730 | one reported pair per entry of the tree, in tree order |
| Execution.GatedEntries | model/execute.hpp:650-681 | Reeb outputs are exactly the FIRST entries; Morse outputs are exactly those that `make_morse` accepts |
| Execution.PartialAll | model/execute.hpp:56-684 | once every center has run, the matrix is the results matrix |
| Execution.Saver.Su | model/execute.hpp:724-726 | one reported pair is appended |
| Execution.Saver.Reeb | model/execute.hpp:674-676 | one Reeb output is appended |
| Execution.Saver.Morse | model/execute.hpp:677-680 | one Morse output is appended |
| Execution.SaveFirst | model/execute.hpp:650-681 | a ratio holding FIRST saves its Reeb graph, and its Morse graph when `make_morse` succeeds |
| Execution.SweepRatios | model/execute.hpp:129-682 | slot c of each ratio holds (stable count, unstable count); the first center's outputs are gated; each flag array ends as its old contents or the edges reached from some ratio's starts, since no ratio clears them |
| Execution.ReachedInRatiosStep | model/execute.hpp:143-159 | one more ratio adds exactly the edges its own starts reach |
| Execution.SweepLevel | model/execute.hpp:62-683 | the same for one level count |
| Execution.ExecuteCenter | model/execute.hpp:62-683 | every level count of center c fills slot c |
| Execution.SaveReports | model/execute.hpp:724-726 | the saver receives the reports in order |
| Execution.ExecuteGenerator | model/execute.hpp:44-730 | a generator's reports, then its gated outputs |
| Execution.Execute | model/execute.hpp:36-731 | the saver receives exactly the reported pairs of every generator in tree order, and the gated Reeb and Morse outputs |
| BatchTable.NextBlank | model/batch.cpp:62-64 | the first blank row at or after the cursor, or none when the table ends first |
| BatchTable.SkipToBlank | model/batch.cpp:62-64 | the row-cursor loop finds that row |
| BatchTable.ParseRow | model/batch.cpp:69-84 | a row parses exactly when it has six cells and both integers parse; the keyword is classified |
| BatchTable.ParamBlock | model/batch.cpp:67-108 | the block ends at a blank row and has one configuration per row before it |
| BatchTable.ReadBlock | model/batch.cpp:67-108 | the parameter loop places the block's configurations uniquely |
| BatchTable.ReadFileNames | model/batch.cpp:111-113 | the file loop reads cell 1 of each row |
| BatchTable.ParamBlockRows | model/batch.cpp:67-108 | every row of the block is non-blank and parses to its configuration |
| BatchTable.FileNamesRows | model/batch.cpp:109-113 | the file names are cell 1 of every row, up to the first row without one |
| BatchTable.LoadBatch | model/batch.cpp:55-119 | the tree and the file list are what the loader leaves, exceptions included |
| BatchTable.LoadBlock | model/batch.cpp:65-113 | the same from the parameter block on |
| BatchTable.PlaceMembers | model/batch.cpp:87-107 | a unique placement adds exactly that configuration |
| BatchTable.LoadedMembers | model/batch.cpp:67-108 | the loaded tree holds exactly the old configurations and the block's |
| BatchTable.LoadedOnce | model/batch.cpp:105-107 | no configuration is listed twice |
| BatchTable.Resize | model/batch.cpp:163 | a row cut or padded with empty cells to the width |
| BatchTable.ColumnCount | model/batch.cpp:154-158 | the index of the first empty header cell, or the header's length |
| BatchTable.CountColumns | model/batch.cpp:154-158 | the counting loop returns that index |
| BatchTable.BlockOf | model/batch.cpp:160-184 | column `cc + 12 + 5i + k` lies in parameter row i's block |
| BatchTable.WriteIndexRow | model/batch.cpp:163-165 | the index row |
| BatchTable.WriteHeaderRow | model/batch.cpp:167-184 | the header row |
| BatchTable.WriteResultRow | model/batch.cpp:189-214 | a file row |
| BatchTable.WriteMesh | model/batch.cpp:193-199 | the mesh properties of a file row |
| BatchTable.WriteSurm | model/batch.cpp:201-211 | the results of each configuration of a file row |
| BatchTable.ReadSignatures | model/batch.cpp:136-152 | the saver's parameter loop reads the same block as the loader |
| BatchTable.SaveBatch | model/batch.cpp:121-223 | the table the saver writes |
| BatchTable.WriteResults | model/batch.cpp:159-215 | the writing part of the saver |
| BatchTable.WriteFileRows | model/batch.cpp:187-215 | every row below the header row is widened and filled |
| BatchTable.SavedUnchanged | model/batch.cpp:128-133 | where the saver throws before writing, the table is written back unchanged |
| BatchTable.SavedShape | model/batch.cpp:160-189 | rows down to the blank row are kept; every later row is `column_count + 12 + 5n` wide |
| BatchTable.SavedFileRow | model/batch.cpp:187-215 | each file row is filled from its file's results |
| BatchTable.ResultCells | model/batch.cpp:189-214 | "error" at `column_count + 1` without results; otherwise the mesh cells, and for each configuration its four results or "error" in its S column |
| BatchTable.SavedIndexRow | model/batch.cpp:163-165 | the index row holds i above the S column of parameter row i |
| BatchTable.SavedHeaderRow | model/batch.cpp:167-184 | the header holds the mesh labels, then S, U, Reeb, Morse in each parameter row's block |
| ParameterStream.RowRoundTrip | parameters.cpp:11-33 | reading a written row gives back its configuration when the generator has no offset |
| ParameterStream.OffsetLost | parameters.cpp:83-87 | the generator's offset is lost on the way through the text |
| ParameterStream.ReadEntries | parameters.cpp:6-71 | reading keeps every row as one entry, duplicates included, and builds a tree without repeated siblings |
| ParameterStream.WriteThenRead | parameters.cpp:76-111 | for values the writer prints exactly, writing a tree without offsets and reading it back gives the same entries, each as often as before |
| ParameterStream.FirstLevelCountOfPath | parameters.hpp:114-116 | on a one-path tree, the corrected accessor gives the level count and the written one gives the area ratio |
| ParameterStream.FirstLevelCountDefault | parameters.hpp:93-95 | on the default parameters the corrected accessor gives 100 and the written one gives 0.01 |
| ParameterStream.PathEntries | parameters.hpp:56-58 | a one-path tree holds exactly its one configuration |
| ParameterStream.WriteRatio | parameters.cpp:82-107 | one numbered line per aggregation of a ratio |
| ParameterStream.WriteLevel | parameters.cpp:80-108 | one numbered line per entry of a level count |
| ParameterStream.WriteGenerator | parameters.cpp:78-109 | one numbered line per entry of a generator |
| ParameterStream.SweepParameters.constructor | parameters.hpp:93-95 | the default path: generator (no offset, ratio 0, one center) → 100 → 0.01 → FIRST, with no rows counted |
| ParameterStream.SweepParameters.WithValues | parameters.hpp:90-92 | one path: offset (x, y, z) → count → amin → FIRST |
| ParameterStream.SweepParameters.Read | parameters.cpp:3-74 | on well-formed rows, the tree is rebuilt from the rows; the row count grows from its old value |
| ParameterStream.SweepParameters.Write | parameters.cpp:76-111 | one line per entry in tree order, numbered consecutively |

## Left out

- The geometry is left out, because it is floating point and foreign CGAL
  code:
  - triangle/sphere intersection, arcs and polygon areas;
  - the face loop of computation.cpp:57-164, taken as an input (`Mesh.faceLoop`), together with what it guarantees;
  - distances and the mesh measurements;
  - the `shape::` calls of `execute` (`intersect_faces`, `discover_graph`, `merge_equal_vertices`, `find_equilibria`, `mark_inside`, `make_reeb`, `make_morse`). The sweep graph and its equilibria are an input (`Sweeps`), and so is the set of entries `make_morse` accepts.
- Center placement is left out: the points come from CGAL's `Random_points_on_sphere_3` driven by `Random random(0)`, a fixed seed, so they are deterministic but foreign floating-point code; only their number is modelled.
- The heuristic label propagation (model/execute.hpp:181-641) is debugging code with floating tie-breaks; also left out are `stable_count`/`unstable_count` and the arcs' prev/next links (model/execute.hpp:101-120).
- `underlying_unstable` is taken to be the unstable equilibria themselves: the equilibria are given as graph edges.
- Execution.Saver: the Reeb and Morse graphs handed to the saver, and `saver.level_graph`, are recorded only by their configuration. The three output kinds are separate traces, so the interleaving of calls across kinds is not recorded.
- Floats and doubles are exact reals, so rounding is not modelled; this includes the float Reeb levels and the float aggregation.
- ParameterStream.SweepParameters.Read: the text layer of `operator>>` is not modelled; the reader takes rows already parsed. Three behaviours are therefore not captured:
  - the loop `while (stream.peek() != ';')` (parameters.cpp:6) stops only at a line that starts with ';', so a well-formed input must end with one;
  - a malformed field or a missing ';' line: the batch loader sets `exceptions(failbit)` (batch.cpp:16, 30), so a failed extraction throws out of `operator>>` after `next` was cleared (parameters.cpp:4) and the earlier rows were placed; with the default mask every extraction fails, `peek()` returns EOF and the loop never ends, incrementing `m_total_count` and reading `vol_rat` uninitialised;
  - `operator<<` prints doubles with the stream's default six significant digits (parameters.cpp:84, 87), so values with more digits do not survive a write and a read, and siblings that print alike merge on reading.
- ParameterStream.WriteThenRead: holds for exact reals, that is for values the writer prints exactly; the six-digit printing of `operator<<` is not modelled (see the line above).
- CSV reading and writing and the number conversions (`stod_coma`, `std::stoi`, `to_string_coma`, `std::to_string`) are parameters (`Numbers`); the percent conversions are exact.
- Parallelism is left out. `combine` is a sequential fold of `merge`. The polls inside the parallel face loop and `cancel_group_execution` are not modelled; the cancel predicate is asked only at the sequential polls.
- The `save()` graphviz writers and the hash of `Neighbor` are left out; only the map semantics matter.
- `m_last_modified` and the clock are left out.
- The mesh accessors and `m_ratios` are outside the core.
- `next_count` is left out: it is the length of the children list (`|next|`).
- Computations.Computation.Keep: states that a copy is kept (the count and the freshness of the copy) but not the copy's contents, to keep the frame reasoning small.
- Computations.Computation.Run: requires at least one center per generator and no negative level count. With no centers, FIRST and the min/max rules would read an empty list; with level count −1, computation.cpp:42 divides by zero, so the guard sphere's radius is infinite (NaN when the two mesh distances coincide), floating-point behaviour the model does not capture; with a level count of −2 or less, `reserve` at computation.cpp:44 throws `length_error`. The kept graphs are stated as displayable (well formed and layered) and by their number, not by their contents.
- Computations.Computation.Sweep: the level graph is stated as well formed and layered with levels 0..n, not as the minor of a particular combined graph.
- LevelGraphs.LevelGraph.Minor: the new Reeb graph is stated as a contraction. This fixes its vertex numbering and its edge list given the ghost `order` of junctions and queued vertices; `order` itself is not tied to the discovery order of the queue walk (`result.add_vertex` at levelgraph.cpp:153 and the queue at levelgraph.cpp:155).
- Execution.Execute: requires at least one center per generator (`Centered`). With no centers, model/execute.hpp:693 reads `r[0]` of an empty vector and model/execute.hpp:706-721 dereference `min_element`/`max_element` of an empty range, which is undefined behaviour, so there is nothing to model.
- Execution.ExecuteGenerator: requires `count >= 1` for the same reason.
- SubrangeGraphs.SubrangeGraph.MinorGraph: the arc lists of the level graph's edges are not stated; no modelled operation reads them.

## Findings

| source | as written | input that shows it | evidently intended | confidence | as-written member | corrected member |
|---|---|---|---|---|---|---|
| parameters.hpp:114-116 | `first_level_count` returns `next[0].next[0].next[0].value`, three levels down, which is the first area ratio | the default parameters (generator → 100 → 0.01 → FIRST): it yields 0.01 | the first level count, `next[0].next[0].value`, i.e. 100 | not executed | ParameterStream.FirstLevelCountAsWritten | ParameterStream.FirstLevelCount |
