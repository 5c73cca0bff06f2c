# PHAST: proofs about its input and output machinery

PHAST simulates flow, transport and reactions in groundwater. Its preprocessor `phastinput` turns zones, polygons,
rivers and time series into data for the cells of a grid; `phast` reads restart data and writes results. These Dafny
modules model the parts of both where many small steps must add up to one simple statement, and prove that they do:

- `ContourForest`, `ContourStores`, `OutputContours`, `ContourEdges`, `ContourSegments`, `ScanbeamTables`, `EdgeTable`,
  `Intersections`, `ClipSetup`: the tables of the generic polygon clipper, from contours to edges, bounds, scanbeams,
  crossings and output contours.
- `GetoptSpec`, `Getopt`: the option scanner that permutes argv, against a reading of argv in one pass.
- `GridIndex`, `OverlayMerge`, `OverlayDrift`, `GridZones`, `Exterior`, `ActiveCells`, `FaceAreas`: grid lines from
  overlays, flat numbers, zones, exterior faces and their areas, active cells.
- `Regions`, `Overlaps`, `RiverPolygons`, `PolygonTree`, `PrismPoints`: what callers do with polygons.
- `RiverRuns`, `RiverSolutions`, `RiverHeads`: values between the river points where they are given.
- `XyztFile`: the cursor over the time planes of a file.
- `Restart`, `HdfLayout`, `HdfSlots`: messages of the restart distribution, and the layout of scalars in the HDF file.
- `Basics`: notions the others share.

Code that updates state step by step is a class or a method with loops, proved against functions of the values; what
the source promises is then proved about those functions. Numbers of type double are exact reals and DBL_EPSILON is 0.
For the callers of the clipper a polygon is a set of points (`Regions`), and clipping is the set operation; whether a
polygon is empty, its area, its vertex count and its box are parameters constrained only by what the callers rely on.

Some properties one might expect do not hold as they stand, and are stated exactly instead:

- Reading time planes: ignored lines before the first valid line of a file are not counted but are read again, so
  planes shift. `XyztFile.PlanesReadRight` says for which files every plane is still read right, in both directions, and
  `XyztFile.IgnoredFirstLineLosesPoint` gives an input where a point is lost.
- Overlay merges: each merge leaves every node within snap of a kept one, but distances add up over several overlays, to
  m times snap and no more (`OverlayMerge.MergeOverlays`), a bound that is attained (`OverlayDrift.DriftAccumulates`). One
  snap is enough for all axes and m overlays exactly if m is at most 1 (`OverlayDrift.OneSnapForOneOverlay`), and after
  any next overlay exactly if no node has been dropped for a different one (`OverlayDrift.OneSnapWhateverComes`).
- Heads along a river: the loop steps over the given point that ends a run, so a run right behind it is filled from an
  older head. `RiverHeads.BracketsUnlessIsolated` says for which rivers this never shows.
- River polygons of a cell: compaction moves polygons but not their river and point numbers. `RiverPolygons.SegmentsStay`
  says when they still belong together, `RiverPolygons.SecondTakesFirstSegment` gives an input where they do not.
- Scanning a permuted argv again gives the same options except in one case (`GetoptSpec.PartitionAgain`), of which
  `GetoptSpec.SecondScanTakesArgument` is an example.
- Time steps in the HDF file: the chemistry is written in every time step, from the start of the dataset, but a step that
  does not print it has no slots for it. It fits exactly if it is printed or there are as many added scalars
  (`HdfLayout.FitsUnlessUnprinted`), and goes to places of its own exactly if it is printed or nothing is added
  (`HdfLayout.ApartUnlessUnprinted`). When it fits, the added scalars are written over it and every slot is right in the
  end; when it does not, the run ends with an error, as for heads alone with two columns of chemistry
  (`HdfSlots.Root.WriteTimeStep`, `HdfLayout.HeadsOnlyTwoColumns`, `HdfSlots.HeadsAlone`).
- The search for the first valid line of a time series file ends exactly if there is one (`XyztFile.SearchEnds`).

`dafny verify dfyconfig.toml` checks the whole project.

## Model

| member | source | states |
|---|---|---|
| ContourForest.RunConserves | src/phastinput/gpc.cpp:784-903 | after any run of adds and merges the vertex lists of the active roots together hold every vertex ever added exactly as often as it was added |
| ContourForest.StepConserves | src/phastinput/gpc.cpp:784-903 | one operation loses no vertex and adds just the one it is given; a merge adds none |
| ContourForest.RunKeepsInfix | src/phastinput/gpc.cpp:784-903 | what a node's contour held at any moment stays one contiguous stretch, in the same order, of the contour the node belongs to at any later moment: contours only grow at their ends and by concatenation |
| ContourForest.ProxyIsConnectedness | src/phastinput/gpc.cpp:814-824 | two nodes have the same proxy exactly when the merges of the run connect them (the equivalence the merges generate), so redirecting loops leave no stale proxy and join nothing else |
| ContourForest.Step | src/phastinput/gpc.cpp:784-903 | every legal operation on well-formed contours leaves them well-formed: proxies are roots, and exactly the roots hold vertices |
| ContourForest.StepDoes | src/phastinput/gpc.cpp:784-903 | seen from the nodes: a local minimum starts a contour of its own; adding puts the vertex at the left or right end of the contour of its node; a left merge joins two contours p's first and marks a hole, a right merge p's last and marks none; every other contour and mark stays |
| OutputContours.ContourList.AddLocalMin | src/phastinput/gpc.cpp:876-903 | the linked node list gains a node with a one-vertex chain at its front, as the forest step says |
| OutputContours.ContourList.AddLeft | src/phastinput/gpc.cpp:784-799 | rewires the left pointer so that the root's chain gains the vertex in front; all pointers still spell the forest |
| OutputContours.ContourList.AddRight | src/phastinput/gpc.cpp:830-846 | rewires the right pointer and the last `next` so that the root's chain gains the vertex behind |
| OutputContours.ContourList.RedirectAll | src/phastinput/gpc.cpp:814-824 | the walk over the node list makes every node that names the target inactive and names the destination, and changes nothing else |
| OutputContours.ContourList.MergeLeft | src/phastinput/gpc.cpp:802-827 | sets the hole flag and, for different roots, puts p's chain in front of q's and redirects p's whole family |
| OutputContours.ContourList.MergeRight | src/phastinput/gpc.cpp:849-873 | clears the hole flag and, for different roots, puts p's chain behind q's and redirects p's whole family |
| OutputContours.ContourList.LinkLeft | src/phastinput/gpc.cpp:808-825 | the pointer surgery of a left merge leaves stores that spell the merged forest |
| OutputContours.ContourList.LinkRight | src/phastinput/gpc.cpp:855-872 | the pointer surgery of a right merge leaves stores that spell the merged forest |
| OutputContours.ContourList.SpliceLeft | src/phastinput/gpc.cpp:808-825 | the pointer assignments of a left merge, one after the other: the last vertex of a is linked to the first of b, b takes a's left end, and every node that named a names b |
| OutputContours.ContourList.SpliceRight | src/phastinput/gpc.cpp:855-872 | the same for a right merge: the last vertex of b is linked to the first of a, and b takes a's right end |
| OutputContours.ContourList.CountContours | src/phastinput/gpc.cpp:749-781 | returns the number of active contours with more than two vertices, and leaves their vertex counts in `active` and 0 everywhere else |
| ContourStores.JoinChains | src/phastinput/gpc.cpp:810-811 | linking the last vertex of one chain to the first of another spells the concatenation and leaves every other chain alone |
| ContourEdges.NextIsModulo | src/phastinput/gpc.cpp:78-79 | the wrapping steps of the model are what PREV_INDEX and NEXT_INDEX compute modulo n |
| ContourEdges.PassComplete | src/phastinput/gpc.cpp:473-525 | a pass from local minima upwards emits every edge that rises in its direction exactly once and no other |
| ContourEdges.EdgesOnce | src/phastinput/gpc.cpp:473-580 | the forward and reverse passes together emit each non-horizontal edge of the contour exactly once and a horizontal one never |
| ContourEdges.PassesFit | src/phastinput/gpc.cpp:439-444 | both passes together write no more edges than the contour has vertices, so e_index stays inside the table |
| ContourEdges.OptimisedEdges | src/phastinput/gpc.cpp:455-471 | leaving out vertices inside horizontal runs keeps the slanted edges of the contour, in order |
| ContourEdges.OptimisedSize | src/phastinput/gpc.cpp:81-82 | as many vertices are kept as have a neighbour at another height |
| ContourEdges.OptimisedAt | src/phastinput/gpc.cpp:455-471 | each of them is kept, in the place it has among them |
| ContourEdges.MinMeansStart | src/phastinput/gpc.cpp:84-92 | FWD_MIN and REV_MIN hold exactly at the vertices where a rising run starts |
| ContourSegments.PassesAreSlanted | src/phastinput/gpc.cpp:473-580 | taken as segments with the lower end first, what the two passes emit is, segment by segment and with the same multiplicity, the slanted edges of the contour they run over |
| ScanbeamTables.InsertOk | src/phastinput/gpc.cpp:278-356 | filing a bound keeps the local minima table strictly increasing with bounds in (x, dx) order and adds exactly that bound and that height |
| ScanbeamTables.LocalMinima.BoundList | src/phastinput/gpc.cpp:326-356 | finds or makes the node of a height in its place |
| ScanbeamTables.LocalMinima.InsertBound | src/phastinput/gpc.cpp:278-323 | inserts the bound before the first one it precedes |
| ScanbeamTables.BoundPlace | src/phastinput/gpc.cpp:278-323 | the bound goes behind every bound further left, or at its x and leaning no further right, and before every other one |
| ScanbeamTables.LocalMinima.Add | src/phastinput/gpc.cpp:326-356 | both together are the insertion that InsertOk is about |
| ScanbeamTables.AddToOk | src/phastinput/gpc.cpp:359-387 | recording a height in the search tree keeps the in-order list strictly increasing, adds just that height and grows it only if it is new |
| ScanbeamTables.ScanbeamTree.Add | src/phastinput/gpc.cpp:359-387 | the tree stays in search order, gains the height, and `entries` stays the number of different heights |
| ScanbeamTables.ScanbeamTree.AddToTree | src/phastinput/gpc.cpp:359-387 | the recursive insertion and its entry counter agree with the in-order list |
| ScanbeamTables.ScanbeamTree.BuildTable | src/phastinput/gpc.cpp:390-399 | the scanbeam table is the strictly increasing list of all recorded heights |
| ScanbeamTables.ScanbeamTree.Fill | src/phastinput/gpc.cpp:390-399 | the in-order walk appends the subtree's heights behind the entries already there |
| ScanbeamTables.WalkScanbeams | src/phastinput/gpc.cpp:1226-1253 | walking scanbeams and minima side by side hands every bound of the table over exactly once, in table order, at the scanbeam that starts at its minimum |
| ScanbeamTables.StillAhead | src/phastinput/gpc.cpp:1239-1252 | a minimum not yet reached stays among the scanbeam heights still to come |
| EdgeTable.CountOptimalVertices | src/phastinput/gpc.cpp:414-428 | counts the vertices kept by contour optimisation, 0 for a contour switched off |
| EdgeTable.CountEdges | src/phastinput/gpc.cpp:479-486 | the forward or backward walk from a minimum ends at the next maximum and counts the rising run |
| EdgeTable.WriteChain | src/phastinput/gpc.cpp:488-521 | writes the edges of the run, and the links to their neighbours in the chain, into exactly the slots reserved for it; what these edges are, PolygonDescribed says |
| EdgeTable.PolygonDescribed | src/phastinput/gpc.cpp:488-580 | every edge written for a polygon goes up, starts at xb == bot.x and reaches its top by its slope: bot.x + dx * (top.y - bot.y) == top.x; it is linked to an edge that continues it and links back; and there is exactly one bound for each chain, with the x, dx and slot of the chain's first edge and filed at its height |
| EdgeTable.EmitChain | src/phastinput/gpc.cpp:477-523 | one local minimum adds its chain behind the edges written before and files its bound |
| EdgeTable.BuildPass | src/phastinput/gpc.cpp:473-525 | a whole pass writes exactly the edges of the pass and files exactly its bounds, behind what was there |
| EdgeTable.LoadContour | src/phastinput/gpc.cpp:455-471 | copies the optimised contour into the table and records exactly its heights in the scanbeam tree |
| EdgeTable.BuildContour | src/phastinput/gpc.cpp:473-580 | both passes over one contour, one behind the other |
| EdgeTable.AddContour | src/phastinput/gpc.cpp:455-580 | the table then holds the edges of all contours so far, the minima table their bounds, the tree their heights |
| EdgeTable.NextContour | src/phastinput/gpc.cpp:446-580 | a contour that contributes is added; a negated count is skipped and restored |
| EdgeTable.BuildLmt | src/phastinput/gpc.cpp:431-583 | the edge table, local minima table and scanbeam tree of exactly the contributing contours, within the allocated room; the slots below e_index hold edges from bottom to top that are, with multiplicity, the non-horizontal edges of those contours, each with the slope that leads from its bottom to its top; every filed bound is that of the slot it names; every negated vertex count is positive again |
| EdgeTable.ContourIsSlanted | src/phastinput/gpc.cpp:455-580 | the edges written for a contour are, as segments and with multiplicity, exactly the non-horizontal edges of that contour before optimisation |
| EdgeTable.PolygonIsSlanted | src/phastinput/gpc.cpp:446-583 | the same for all contributing contours together |
| EdgeTable.SlantedAllRise | src/phastinput/gpc.cpp:488-521 | edges with those segments all have bot.y < top.y |
| EdgeTable.CountTotal | src/phastinput/gpc.cpp:439-444 | the room allocated is the number of optimised vertices of the contributing contours |
| EdgeTable.SlotsFit | src/phastinput/gpc.cpp:439-444 | the slots used by all contours never exceed that room |
| EdgeTable.FiledOk | src/phastinput/gpc.cpp:326-356 | filing a list of bounds keeps the table in order and files each bound once, at its height |
| EdgeTable.PolygonHeights | src/phastinput/gpc.cpp:466-580 | bounds are filed only at heights the scanbeam tree records |
| ClipSetup.ContourBBox | src/phastinput/gpc.cpp:955-987 | the least box around a contour |
| ClipSetup.CreateContourBBoxes | src/phastinput/gpc.cpp:955-987 | one such box per contour |
| ClipSetup.MinimaxTest | src/phastinput/gpc.cpp:990-1042 | negates exactly the counts of clip contours whose box meets no subject box, and for an intersection likewise of subject contours; all others stay, also when both polygons are the same object |
| ClipSetup.OverlapIsShared | src/phastinput/gpc.cpp:1006-1012 | the boxes of two contours overlap exactly if they share a point |
| ClipSetup.TrivialIsEmpty | src/phastinput/gpc.cpp:1170-1179 | the trivial cases are exactly those in which no point can be in the result because a polygon has no contour |
| ClipSetup.TestContours | src/phastinput/gpc.cpp:1181-1184 | the box test is run exactly for intersections and differences of two non-empty polygons, which may be the same object |
| ClipSetup.BuildBoth | src/phastinput/gpc.cpp:1186-1190 | tables of both polygons from the contours still switched on; both polygons have all counts restored |
| ClipSetup.TakeUp | src/phastinput/gpc.cpp:1205-1253 | every filed bound enters the active edge table exactly once, in the order of the local minima table and at its own scanbeam |
| ClipSetup.SetUp | src/phastinput/gpc.cpp:1170-1253 | from the trivial cases to the scanbeam walk: the inputs come back unchanged, and every bound of every contributing contour enters exactly once, in the order of the local minima table and at the scanbeam of its own minimum, or nothing was filed and the result is empty |
| Intersections.IntersectionTable.AddIntersection | src/phastinput/gpc.cpp:636-669 | inserts the node behind all nodes not above it and before the first one above it |
| Intersections.IntersectionTable.AddStEdge | src/phastinput/gpc.cpp:671-719 | places an edge in the sorted edge table, recording a crossing for each edge passed |
| Intersections.IntersectionTable.BuildIntersectionTable | src/phastinput/gpc.cpp:720-747 | runs this over the edges that are bundled above and frees the sorted edge table: for edges in order of bottom x the table then has one node for each two edges bundled above whose order at the top is inverted, and no other |
| Intersections.ContributingAre | src/phastinput/gpc.cpp:730-735 | the edges that take part are those that head a bundle or are bundled for either polygon |
| Intersections.BuildSpec | src/phastinput/gpc.cpp:636-747 | for edges in order of bottom x: one node for each pair whose order at the top is inverted and none for any other, the table sorted by y with every point on both edges and 0 <= y < dy, and the sorted edge table ordered by top x |
| Intersections.CrossingMeets | src/phastinput/gpc.cpp:694-707 | the recorded point lies on both lines and inside the scanbeam; edges that cross are never skipped as parallel |
| Intersections.AddEdgeCrosses | src/phastinput/gpc.cpp:671-719 | one new edge adds exactly the pairs with the edges that end up to its right |
| Getopt.ReverseSpan | src/phastinput/getopt.cpp:253-263 | the two-ended swap loop reverses a stretch of argv and nothing else |
| Getopt.SwapStretches | src/phastinput/getopt.cpp:247-288 | three reversals swap two adjacent stretches of argv in place |
| Getopt.ThreeReversals | src/phastinput/getopt.cpp:233-241 | reversing the whole and then each part is the swap |
| Getopt.Scanner.Exchange | src/phastinput/getopt.cpp:247-288 | argv has the skipped non-options and the later options swapped, and first_nonopt and last_nonopt describe their new place |
| Getopt.Scanner.CloseGap | src/phastinput/getopt.cpp:388-394 | before scanning on, all options seen are in front of all skipped non-options |
| Getopt.Scanner.SkipNonOptions | src/phastinput/getopt.cpp:399-408 | extends the skipped stretch up to the next option |
| Getopt.Scanner.EndScan | src/phastinput/getopt.cpp:411-440 | at `--` or the end, argv is the permuted vector and optind points behind the options; otherwise nothing changes |
| Getopt.Scanner.TakeArgument | src/phastinput/getopt.cpp:632-683 | the argument is the rest of the element, or the next element for a required one, or missing |
| Getopt.Scanner.DecodeLetter | src/phastinput/getopt.cpp:601-686 | one option letter: its answer, how far optind moves and what stays of the cluster; optopt names a letter that is not listed or lacks its argument |
| Getopt.MoveAnswers | src/phastinput/getopt.cpp:601-686 | these moves read off a cluster letter by letter give the answers and the elements used up of the one-pass reading |
| Getopt.Scanner.GetOpt | src/phastinput/getopt.cpp:346-688 | each call returns the next answer of the one-pass reading of the original argv and keeps the placement invariant; EOF comes exactly when none is left |
| Getopt.Scanner.Run | src/phastinput/getopt.cpp:346-690 | calling until EOF terminates with the answers of the one-pass reading, argv permuted as Partition says and optind at the first non-option |
| GetoptSpec.KindIs | src/phastinput/getopt.cpp:652-656 | read off the option string: a letter takes no argument if no colon follows its first place, one if one colon follows, and may take one if two follow |
| GetoptSpec.BadIs | src/phastinput/getopt.cpp:605-633 | a letter is bad exactly if the option string does not list it, or it is the colon |
| GetoptSpec.ElementAnswers | src/phastinput/getopt.cpp:383-440 | an element that does not begin with a dash, or is just a dash, is passed over, `--` ends the answers, and any other element has its letters answered one by one |
| GetoptSpec.ListedAnswer | src/phastinput/getopt.cpp:652-686 | a listed letter is answered by itself with its argument: the rest of its element, or the next element if one is required; only a required argument that is missing gives the answer `:` or BAD_OPTION |
| GetoptSpec.UnlistedAnswer | src/phastinput/getopt.cpp:612-633 | a letter that is not listed is answered by BAD_OPTION, and the scan goes on with the next letter |
| GetoptSpec.TakesNextIs | src/phastinput/getopt.cpp:652-682 | an element takes the next one as its argument exactly if its last letter wants an argument and no letter before can have one |
| GetoptSpec.ElementSplit | src/phastinput/getopt.cpp:383-440 | what Partition does with the first element: a non-option is kept back, an option goes to the front together with the element it takes |
| GetoptSpec.PartitionPermutes | src/phastinput/getopt.cpp:225-241 | the permuted vector holds the same elements as the original |
| GetoptSpec.PartitionKeepsOrder | src/phastinput/getopt.cpp:225-241 | options with their arguments and non-options each keep their original order, and everything after `--` stays where it was |
| GetoptSpec.PartitionAgain | src/phastinput/getopt.cpp:383-440 | scanning a permuted vector again leaves it as it is; it finds the same options if and only if the last option did not lack its argument or there was no non-option for it to take |
| GetoptSpec.SecondScanTakesArgument | src/phastinput/getopt.cpp:383-440 | f -a with an option -a that wants an argument: the second scan takes the f it did not take before |
| GridIndex.FlatDecode | src/phastinput/accumulate.cpp:491-520 | decoding the flat number of a node of the grid gives the node back, and the number is in range |
| GridIndex.DecodeFlat | src/phastinput/accumulate.cpp:491-520 | every number below nx*ny*nz is that of a node of the grid |
| GridIndex.FlatTestIsMeets | src/phastinput/check.cpp:899-980 | an element lookup by flat number without a guard per axis never mistakes a wrapped-around node for a neighbouring element |
| GridZones.ZonesInOrder | src/phastinput/accumulate.cpp:361-430 | along an axis the zones follow one another without overlap, each around its own coordinate |
| GridZones.ZonesCover | src/phastinput/accumulate.cpp:361-430 | consecutive zones leave no gap |
| GridZones.DefineZones | src/phastinput/accumulate.cpp:361-430 | the triple loop gives every cell, in flat order, the box that ends halfway to its neighbours along each axis, or at its own coordinate where there is none |
| GridZones.ZonesFillDomain | src/phastinput/accumulate.cpp:361-430 | every point of the domain lies in the zone of some cell |
| GridZones.ZonesDoNotOverlap | src/phastinput/accumulate.cpp:361-430 | no point is inside the zones of two cells |
| GridZones.CoordToCell | src/phastinput/accumulate.cpp:3017-3047 | succeeds exactly inside the domain, with the first node whose zone contains the argument |
| GridZones.SnapOutToRange | src/phastinput/accumulate.cpp:2949-2988 | the node range around [x1, x2]; it fails exactly when the range ends at or before the first node |
| GridZones.SnappedRangeSuffices | src/phastinput/accumulate.cpp:2949-2988 | the snapped nodes include every zone a coordinate of the range is inside of, and cover it when it is in the domain |
| OverlayMerge.SortOk | src/phastinput/accumulate.cpp:262-265 | the nodes in ascending order, none lost |
| OverlayMerge.Compact | src/phastinput/accumulate.cpp:266-276 | in place, keeps the first node and then each node more than snap above the last one kept, as Thin says |
| OverlayMerge.MergeOverlay | src/phastinput/accumulate.cpp:242-287 | after one merge the axis is strictly increasing, starts at the minimum, reaches the old last node, holds only input nodes, has every input node at most snap above a kept one, and neighbours more than snap apart except possibly at the old last node |
| OverlayMerge.MergeOverlays | src/phastinput/accumulate.cpp:214-288 | after m merges the same holds with every node ever given at most m times snap above a kept one |
| OverlayMerge.MergeOk | src/phastinput/accumulate.cpp:242-287 | what one merge leaves, as a function of the two lists of nodes, has all those properties |
| OverlayMerge.MergeAllOk | src/phastinput/accumulate.cpp:214-288 | what m merges leave has those of m merges |
| OverlayDrift.DriftAccumulates | src/phastinput/accumulate.cpp:214-288 | the bound m times snap is attained for every m: there are an axis and m overlays after which a node given lies within a distance above a kept one exactly if that distance is at least m times snap |
| OverlayDrift.OneSnapForOneOverlay | src/phastinput/accumulate.cpp:214-288 | for every axis, all m overlays and every snap one snap is enough if and only if m is at most 1 |
| OverlayDrift.OneSnapWhateverComes | src/phastinput/accumulate.cpp:266-276 | for every axis, overlays and snap: one snap is enough after any further overlay if and only if no merge so far has left a node dropped for a different one, that is if every node given is still on the axis |
| Exterior.SurfaceClosed | src/phastinput/accumulate.cpp:3365-3694 | for every pattern of active elements and every row of nodes along an axis, the exterior areas facing down the axis and up it are equal in total |
| ActiveCells.RecordedSurfaceClosed | src/phastinput/accumulate.cpp:3365-3694 | the same for the areas recorded in the array of exterior records, a cell without record counting 0, on any grid with increasing coordinates |
| Exterior.OpenStep | src/phastinput/accumulate.cpp:3416-3676 | at each node the face areas change the open cross-section by exactly the difference of the two directions |
| Exterior.GuardedElement | src/phastinput/accumulate.cpp:3376-3414 | the element of one octant, or -1 if it does not exist or is inactive |
| Exterior.CellExterior | src/phastinput/accumulate.cpp:3376-3690 | the exterior record of a cell: absent if no element around it is active, else each side's flag and area from the quarters whose element is missing on that side only |
| Exterior.SetExteriorCells | src/phastinput/accumulate.cpp:3365-3694 | every cell gets its exterior record, in flat order |
| FaceAreas.MeetsIs | src/phastinput/accumulate.cpp:3376-3414 | an octant of a node has an active element exactly if the element on that side along each axis is one of the grid's and is marked active at its flat number |
| FaceAreas.RecordedParts | src/phastinput/accumulate.cpp:3426-3690 | the area a cell records on one side of an axis is that of the rectangles between its node and the corners of its zone whose element is active with none opposite |
| FaceAreas.FullFace | src/phastinput/accumulate.cpp:3426-3690 | with all four elements on one side active and none opposite, the cell records the whole face of its zone there: (y2 - y1) * (z2 - z1) across x, and the like across y and z; on the other side it records nothing |
| FaceAreas.OneCorner | src/phastinput/accumulate.cpp:3426-3690 | with one such pair of opposite elements it records the rectangle between the node and the corner of its zone on that element's side |
| FaceAreas.InArrays | src/phastinput/accumulate.cpp:3365-3694 | the record of a node and its zone are those at its flat number in the arrays that SetExteriorCells and DefineZones fill |
| ActiveCells.CheckLeakyForFace | src/phastinput/check.cpp:917-980 | true exactly when some pair of opposite elements along the axis differs |
| ActiveCells.LeakyMeansMarked | src/phastinput/check.cpp:917-980 | the check finds a face on an axis exactly when set_exterior_cells marks a face of the cell on that axis |
| ActiveCells.SetActiveCells | src/phastinput/check.cpp:458-503 | a cell is marked exactly if an active element touches it, and the result says whether there is any active element |
| ActiveCells.ScatterIsGather | src/phastinput/check.cpp:458-503 | scattering from elements to their nodes marks exactly the nodes that find an active element around them, which are those that get an exterior record |
| ActiveCells.EltNeighbors | src/phastinput/accumulate.cpp:659-747 | the element stencil of a cell, guarded below only, is that of the fully guarded lookup |
| Overlaps.Cell.ProcessBc | src/phastinput/accumulate.cpp:4365-4434 | type of the last definition; a specified cell keeps its polygons; otherwise every flux and leaky polygon loses what later definitions of the same type and face cover, with its area recomputed, and the flags say which types occur |
| Overlaps.Cell.ResolveFace | src/phastinput/accumulate.cpp:4392-4427 | one backward walk over the definitions of one type and face |
| Overlaps.LatestWins | src/phastinput/accumulate.cpp:4387-4431 | the polygons of one type and face become disjoint with unchanged union, and each point goes to the latest definition containing it |
| Overlaps.AreasAddUp | src/phastinput/accumulate.cpp:4387-4431 | the recorded areas of one type and face add up to the area covered together, for any area additive on disjoint polygons |
| Overlaps.OthersStay | src/phastinput/accumulate.cpp:4387-4431 | boundary conditions that are neither flux nor leaky, or not for a face across x, y or z, stay as they are |
| RiverPolygons.VertexToRange | src/phastinput/accumulate.cpp:2860-2920 | the node range around the least rectangle of a contour; none exactly when it ends at or before the first node of an axis |
| RiverPolygons.ClipToCells | src/phastinput/rivers.cpp:69-136 | every piece is the polygon's part in one cell of the range, no further from its node than halfway to the nodes next to it, and every cell of the range that holds part of it has a piece; if the polygon lies within its contour's bounds, the pieces hold all its points in the domain |
| RiverPolygons.NothingLost | src/phastinput/rivers.cpp:69-136 | for a polygon whose points lie in every rectangle around its contour: every point in the domain is in some piece; without a range only points on the first grid line of an axis are left out |
| RiverPolygons.CellRivers.RemoveDuplicateAreas | src/phastinput/rivers.cpp:138-168 | the double loop over pairs leaves each polygon exactly what no earlier one covered |
| RiverPolygons.FirstWins | src/phastinput/rivers.cpp:138-168 | the polygons are then disjoint with unchanged union, the earliest winning |
| RiverPolygons.SegmentsStay | src/phastinput/rivers.cpp:184-196 | compaction leaves every polygon with its own river and point number if and only if no polygon without area stood before one that is kept |
| RiverPolygons.SecondTakesFirstSegment | src/phastinput/rivers.cpp:184-196 | a cell with two polygons, the first left empty: the second ends up with the numbers of the first |
| RiverPolygons.CellRivers.RemoveEmpty | src/phastinput/rivers.cpp:169-197 | compaction in place keeps exactly the polygons with contours and positive area, in order; the numbers beside them do not move |
| RiverPolygons.KeptUnion | src/phastinput/rivers.cpp:169-197 | it loses only points of polygons without positive area |
| RiverSolutions.River.InterpolateSolutions | src/phastinput/rivers.cpp:1013-1064 | every point gets the mixture of the nearest given solutions on either side: a given point its own solution alone with f1 = 1, any other the solutions before and behind it with f1 the distance to go over the distance between, or 1 if that is 0; the nested loops stay in bounds and terminate |
| RiverSolutions.River.MeasureRun | src/phastinput/rivers.cpp:1033-1051 | the walk over a run ends at the next given point with the distance between the given points around it |
| RiverSolutions.River.MixRun | src/phastinput/rivers.cpp:1341-1388 | every point of the run gets solution1, solution2 and f1 from that distance |
| RiverSolutions.FractionBounds | src/phastinput/rivers.cpp:1055-1061 | f1 is between 0 and 1, and 1 when the given points coincide |
| RiverSolutions.FractionFalls | src/phastinput/rivers.cpp:1055-1061 | f1 does not grow along a run, and all its points have the same two neighbours |
| RiverSolutions.FractionLinear | src/phastinput/rivers.cpp:1055-1061 | f1 is the distance still to go to the later neighbour as a part of the distance between the two: 1 - (distance from the earlier one) / (distance between) |
| RiverRuns.ShareGrows | src/phastinput/rivers.cpp:1038-1061 | along a run the neighbours stay the same and the share of the way grows from 0 to 1, 0 throughout if the neighbours coincide |
| RiverRuns.AlongSteps | src/phastinput/rivers.cpp:850-880 | the distance from a to c is that from a to b, the step from b to the next point and the distance on from there |
| RiverHeads.River.InterpolateHeads | src/phastinput/rivers.cpp:841-882 | the head loop, with its step over the point that ends a run, leaves the heads that Walk describes; if no given point stands alone between two runs, the head h of point i between the given points p and n has (h - head p) * (distance p to n) == (head n - head p) * (distance p to i), and is head p if p and n coincide |
| RiverHeads.River.FillRun | src/phastinput/rivers.cpp:850-880 | one run: measured from what the last run left of the length, filled from the last head noted |
| RiverHeads.BracketsUnlessIsolated | src/phastinput/rivers.cpp:841-882 | the loop leaves heads in proportion to the distances between the nearest given points, for all heads and distances, if and only if no given point stands alone between two runs |
| RiverHeads.BracketedProportional | src/phastinput/rivers.cpp:877-878 | head1 + length / total_length * (head2 - head1) is that proportion, given the distance from the earlier head |
| RiverHeads.BracketedBetween | src/phastinput/rivers.cpp:841-882 | the interpolated head lies between the two given ones |
| RiverHeads.SpikePassedOver | src/phastinput/rivers.cpp:881 | a run behind a given point that stands alone gets its heads as if that point were not there |
| PolygonTree.Tree.Split | src/phastinput/Polygon_tree.cpp:62-128 | cuts a tip in two if its polygon has at least ten vertices, else leaves it: two new tips hold what of the polygon lies in either half of the box, cut in the middle, and are to be cut across the other axis; the tree invariant stays |
| PolygonTree.CutOk | src/phastinput/Polygon_tree.cpp:62-128 | the two halves of a cut leaf together are its polygon |
| PolygonTree.TipsAreThePolygon | src/phastinput/Polygon_tree.cpp:62-128 | after any cuts the tips cover exactly the original polygon |
| PolygonTree.Tree.PointInPolygon | src/phastinput/Polygon_tree.cpp:250-317 | equals membership in the original polygon although the query may cut a leaf; the work list empties |
| PolygonTree.Tree.IntersectCell | src/phastinput/Polygon_tree.cpp:318-345 | for any bounded cell, the union of the tips' parts in it is the polygon's part in it, although tips are passed over by their boxes |
| PolygonTree.BoundingExists | src/phastinput/Polygon_tree.cpp:318-333 | boxes that hold every bounded region exist, as the tree assumes of the clipper's bounding boxes, with any vertex counts |
| PolygonTree.Tree.Queries | src/phastinput/Polygon_tree.cpp:250-345 | any sequence of queries is answered as the untouched polygon would answer |
| XyztFile.XyztFile.constructor | src/phastinput/XYZTfile.cpp:19-85 | indexes the file once the search for a first valid line ends: times_vector is the list of new latest times and count_lines the lines of each plane; for any file and any number of turns of the search |
| XyztFile.SearchEnds | src/phastinput/XYZTfile.cpp:42-48 | some number of turns of the search for a first valid line finds one if and only if the file has one: in a file without, the search goes on forever |
| XyztFile.XyztFile.CountLines | src/phastinput/XYZTfile.cpp:53-76 | the counting loop |
| XyztFile.RecordsAreLatest | src/phastinput/XYZTfile.cpp:53-76 | times_vector is strictly increasing, and its last entry is the latest time of the file |
| XyztFile.CountsPartition | src/phastinput/XYZTfile.cpp:39-76 | count_lines cuts the lines from the first valid one on into one stretch per time, and every line lies in the stretch of its plane |
| XyztFile.CountsCoverFile | src/phastinput/XYZTfile.cpp:39-76 | the counts add up to the whole file exactly if its first line is valid |
| XyztFile.PlaneTimes | src/phastinput/XYZTfile.cpp:53-76 | a line is not later than its plane, and the line that opens a plane has its time |
| XyztFile.PlanesReadRight | src/phastinput/XYZTfile.cpp:186-228 | every plane is read as its own points if and only if, for each plane, the lines that ignored lines at the top of the file push beyond its count are ignored too; so always when the first line is valid |
| XyztFile.IgnoredFirstLineLosesPoint | src/phastinput/XYZTfile.cpp:39-76 | one ignored line at the top is enough to lose a point |
| XyztFile.XyztFile.ReadSet | src/phastinput/XYZTfile.cpp:186-228 | reads the counted lines of the next plane and replaces the data source by their points, not yet converted; false after the last plane |
| XyztFile.PointOfLine | src/phastinput/XYZTfile.cpp:196-222 | every valid line read has a point with its coordinates and value, in its place among the lines before it |
| XyztFile.LineOfPoint | src/phastinput/XYZTfile.cpp:196-222 | there is no other point |
| XyztFile.XyztFile.Read | src/phastinput/XYZTfile.cpp:126-185 | whatever was read before, the loaded data is the plane for the time alone, its coordinates converted exactly once: the last one that starts at or before 1.000001 times the time, or the first |
| XyztFile.XyztFile.FindTarget | src/phastinput/XYZTfile.cpp:149-159 | the search finds the last plane at or before the fudged time, or the first plane |
| XyztFile.TargetIs | src/phastinput/XYZTfile.cpp:132-159 | that plane is the only one that starts at or before the time with the next one after it |
| XyztFile.XyztFile.ReadAll | src/phastinput/XYZTfile.cpp:126-185 | any sequence of reads leaves what its last read alone would have left |
| PrismPoints.Prism.PointsInPolyhedron | src/phastinput/Prism.cpp:586-718 | for any list order and any earlier calls, the list keeps in order exactly the points accepted; with surfaces over x and y these are the points of Point_in_polyhedron, those in the box, inside the perimeter, not below the bottom and not above the top |
| PrismPoints.Prism.DropOutsidePerimeter | src/phastinput/Prism.cpp:607-640 | the memo of the last column never changes an answer |
| PrismPoints.Prism.DropBelowBottom | src/phastinput/Prism.cpp:641-677 | the same for the bottom surface |
| PrismPoints.Prism.DropAboveTop | src/phastinput/Prism.cpp:679-717 | the same for the top surface |
| PrismPoints.AcceptsIsPointIn | src/phastinput/Prism.cpp:739-773 | with a vertical dip and surfaces over x and y, asking at the projection decides as asking at the point |
| PrismPoints.FourPasses | src/phastinput/Prism.cpp:586-718 | the four passes one after the other are the conjunction of their tests |
| PrismPoints.FilterAt | src/phastinput/Prism.cpp:586-718 | an entry that is kept stands behind exactly the kept ones before it |
| Restart.BlocksPartition | src/phast/FileHandler.cpp:253-271 | for any start and end cell and any positive block size, the blocks of a rank, one after the other, are its cells in order; none is empty or longer than the block size |
| Restart.CountBlocks | src/phast/FileHandler.cpp:255-257 | C division with its truncation gives the number of blocks that just hold the rank's cells: one block less does not; not positive for a rank without cells |
| Restart.SendBlocks | src/phast/FileHandler.cpp:253-419 | root sends a rank its blocks as size and dump, and keeps its own |
| Restart.RootProgram | src/phast/FileHandler.cpp:253-425 | over all files and ranks, what root sends to a rank is exactly what is meant for it, in order |
| Restart.RankProgram | src/phast/FileHandler.cpp:430-456 | a rank posts two receives for each of its own blocks and files, none for others |
| Restart.AllPrograms | src/phast/FileHandler.cpp:253-456 | both sides fit when the ranks share the list of files |
| Restart.StepInv | src/phast/FileHandler.cpp:403-447 | every step of any rank keeps what was received, what is under way and what is yet to be sent in order, and uses up part of a finite measure |
| Restart.NoDeadlock | src/phast/FileHandler.cpp:403-447 | unless everything is delivered some rank can go on, whether sends are buffered or not |
| Restart.EveryRunDelivers | src/phast/FileHandler.cpp:403-456 | every interleaving is finite, ends only when all is delivered with none left over, and then each rank holds exactly its cells of every file in order, each dump announced by its own size |
| HdfSlots.Root.WriteGrid | src/phast/hdf.cpp:1221-1245 | active and natural_to_active are mutually inverse, active ascending, inactive cells at -1; an error exactly when no cell is active |
| HdfSlots.Root.BeginChemistry | src/phast/hdf.cpp:133-150 | one inactive value per scalar and active cell |
| HdfSlots.Root.FillHyperSlab | src/phast/hdf.cpp:192-212 | each column fills its own slot with the values of the active cells, and no other slot changes |
| HdfLayout.FilledAt | src/phast/hdf.cpp:201-210 | d[c*nxyz + active[a]] lies at c*nactive + a |
| HdfLayout.WriteSlab | src/phast/hdf.cpp:1015-1040 | writing one slot changes no other: slots do not overlap |
| HdfLayout.ScalarInSlot | src/phast/hdf.cpp:1000-1040 | a slot that holds a scalar has, at place a, the scaled value of active cell a if its fraction is above 0.0001 and else 1.0e30 |
| HdfLayout.CompleteSlots | src/phast/hdf.cpp:839-1065 | if every slot holds what belongs to it, the dataset is complete place by place: result d[c*nxyz + active[a]] at c*nactive + a for the printed chemistry, then the added scalars in order |
| HdfSlots.Root.OpenTimeStep | src/phast/hdf.cpp:839-955 | no time step without scalars or vectors; else an index slot per scalar, the chemistry indices recorded, counting restarted |
| HdfSlots.Root.WriteChemistry | src/phast/hdf.cpp:1388-1426 | the chemistry goes to the slots from the first on, as many as it has scalars, and to no other; an error, and nothing written, exactly when the dataset has fewer slots or there is none |
| HdfSlots.Root.StartTimeStep | src/phast/FileHandler.cpp:988-992 | the step is opened and the chemistry written to it, printed or not; an error exactly when it has scalars, is not printed and there are fewer added scalars than it has |
| HdfLayout.FitsUnlessUnprinted | src/phast/hdf.cpp:851-898 | the chemistry lies within the dataset if and only if it is printed or there are at least as many added scalars |
| HdfLayout.ApartUnlessUnprinted | src/phast/hdf.cpp:1036-1040 | the chemistry and the added scalars go to different places of the dataset if and only if the chemistry is printed or nothing is added |
| HdfLayout.HeadsOnlyTwoColumns | src/phast/hdf.cpp:1399-1413 | heads alone with two columns of chemistry: one slot, of which every place is written with the chemistry too, and the chemistry does not fit |
| HdfSlots.HeadsAlone | src/phast/FileHandler.cpp:988-994 | on a grid of one cell: a step with chemistry and heads is written, a step with heads alone is not |
| HdfSlots.Root.FindName | src/phast/hdf.cpp:981-993 | a name known among the added scalars keeps its index, a new one is appended; no added name occurs twice |
| HdfSlots.Root.PrintArray | src/phast/hdf.cpp:968-1065 | the next slot after the chemistry holds, for each active cell in order, the scaled value of that cell, or 1.0e30 where the fraction is at most 0.0001; its index is recorded, every other slot and every earlier record keeps its meaning |
| HdfSlots.Root.GatherColumn | src/phast/hdf.cpp:1000-1016 | the scaled value of the active cell where the fraction is above 0.0001, else 1.0e30 |
| HdfSlots.Root.CloseTimeStep | src/phast/hdf.cpp:343-417 | the recorded indices are written and the step is closed |
| HdfLayout.StepStays | src/phast/hdf.cpp:981-998 | names are only added, so an index recorded in any time step names the same scalar forever |
| HdfLayout.SameIndex | src/phast/hdf.cpp:981-998 | in any two time steps the same scalar has the same index and different scalars different ones |
| HdfSlots.Root.WriteTimeStep | src/phast/FileHandler.cpp:988-994 | a whole time step in which something is printed, for every request: written exactly when the chemistry fits; then it is recorded with the names of its scalars, and every slot holds the scalar of its place, since the added scalars come after the chemistry; place by place the dataset is that of CompleteSlots |
| HdfSlots.Root.WriteTimeSteps | src/phast/PhastFortran/phast_manager.F90:234-243 | any run of time steps: those that print neither chemistry nor heads nor velocities write nothing; it goes on up to the first printed one in which the chemistry does not fit; the steps recorded are those of the printed requests, in order, and between any two of all steps the same scalar has the same index and different scalars different ones |

## Left out

- The scanbeam loop of the clipper itself (bundles, horizontal edges, quadrant classes) and all of tristrip clipping: callers take clipping as operations on point sets.
- Edge fields the passes only reset (bundles, sides, output pointers), which the scanbeam loop uses.
- Heap nodes of the clipper: output vertices and contour nodes live in two stores and a pointer is an index into them; edges of the active edge table are values; freeing and allocation failure are not modelled.
- The result polygon, and so clipping a polygon into one of its own inputs.
- Contour coordinates beyond the largest double: bounding boxes are proved for coordinates within plus and minus DBL_MAX.
- Long options of getopt, the orderings REQUIRE_ORDER and RETURN_IN_ORDER, calls after EOF, and messages.
- Floating-point rounding: all arithmetic is on reals, so effects at the scale of DBL_EPSILON or of the fudge factor's own rounding are not covered.
- Overlay and axis checks that only report errors, and the expansion of uniform overlays before merging.
- Boundaries of polygons: point sets are taken up to their boundaries. A clip that leaves only a boundary line, as of a closed cell that touches a polygon, has no contour in the source, while `TellsEmpty` calls a clip empty only if it has no point.
- The polygon areas of exterior faces as polygons (xn_gon and the others): only flags and areas are modelled.
- `coords_to_range`, `zone_to_range` and the uniform-grid lookups, which repeat the range computation for other callers.
- Width, conductance, thickness and elevation along rivers, whose loops have the shape of the head loop, and the earlier and later copies of the river loops (rivers.cpp 304-359 and 1298-1388); `Drain.cpp`, which repeats the polygon loops.
- Square roots: river distances are any non-negative numbers.
- The endless search in a time series file without a valid line: the constructor is given the number of turns it may take, which can be any number.
- Coordinate conversion of time series data: counted, not computed; file errors are not modelled and a file is the same each time it is opened.
- Surfaces of a prism that depend on z, and slanted prisms: every constructor sets a vertical dip.
- The contents of restart dumps and how the message size is laid out in memory: a dump is the list of its cells, and the ranks share the list of restart files.
- A selected output without columns, and the rest of a run after a write to the HDF file fails: the program stops there.
- HDF5, zlib and MPI calls, PhreeqcRM, file and console output, keyword parsing and units.
- `UniqueMap.h`, `PHAST_Transform.cpp`, `Cube.cpp`, `Wedge.cpp`: per-case geometry or push-only claims that would add only easy members.
