# TRI-Framework: a verified model of its trajectory index

TRI-Framework cuts trajectories into segments, bounds each segment by a shape, bulk-loads the shapes into an
R-tree over paged storage, and answers queries by filtering on the shapes. This project models that path in
Dafny and proves what each part promises, and what the parts promise together.

| files | what they model |
|---|---|
| `Geometry`, `Boxes`, `Wrappers` | points, straight motion, discs, boxes, optional values |
| `Quadratics`, `RelativeMotion`, `MovingCone`, `Cylinder`, `FilterSoundness`, `SlowMotion`, `TrajectoryFilter` | the moving bounding cone of a trajectory, the three-valued cylinder filter on cones, boxes and segments, where its shortcuts err, and what its answers mean for the trajectory |
| `Segmenters`, `Simplification`, `SimplifiedPath`, `SegmentFilter`, `Phases` | cutting trajectories by length, point count and deviation, how far simplification strays, the filter over a whole segmentation, cutting along a box |
| `Counting`, `ExternalSorter`, `MergeOrder`, `BulkLoader`, `Layers`, `BulkTree`, `SbbStream` | the external merge sort and its order, the recursive tiler and which records share a node, the levels and the finished tree, the numbered stream of segments and the walk along the sibling links |
| `TreeLookup` | looking up a stored box, repairing boxes up the path |
| `KineticLines`, `MovingRegions`, `SweptArea`, `KineticSweep`, `SharedArea` | linearly moving boxes: containment, contact interval, swept and shared area |
| `DynamicTimeWarping` (in `Dtw`) | the dynamic program and its traceback |
| `TrajectoryStore`, `PageBuffer` | trajectories on pages, the page store and the write-back buffer |

`dafny verify dfyconfig.toml` checks everything.

Conventions. Coordinates and times are exact reals. The library square root and power function are parameters; where
a result needs their laws (a nonnegative root of every nonnegative number; powers that undo each other) they are
preconditions.
Thrown exceptions are result values. Temporary files are sequences of records. Random choices, such as the victim of
an eviction, are arbitrary. The slab count of the tiler along its first axis, which comes from cost formulas, is any
function of the number of nodes.
`std::sort` is represented by an insertion sort and the priority queues by the choice of an extreme element, both
known to their callers only by contract. A stored node is represented as it reads back from its page: a leaf entry
keeps its number, its storage place and its bounding shape (given by its box), and its links if the tree stores
links, but not the box slot that lookups compare (src/xrtree/Node.cc:63-166). The cutting tolerance of the length
segmenter (`splitSoftThres`, 0.2 by default) is a parameter between 0 and 1/2.

What the proofs found, beyond what the documentation says:

- The filter counts motion of less than sqrt(1e-7) within the query period as standing still at its start, so its
  answers carry that much slack. `SlowMotion.MissesSlowMotion` gives queries answered "clear" although the object
  arrives exactly at the query centre. For a segment "clear" is right for every radius exactly if the period is not
  slow or the segment leads away from the query centre (`SlowMotion.LineRightExact`). For a cone it is right for every
  query exactly if the period is not slow or the disc at full radius around the start would cover it throughout
  (`SlowMotion.ConeRightExact`), which shows at two instants (`SlowMotion.CoveredShowsAtTwo`). For the trajectory
  behind the cone it is right for every query exactly if the period is not slow or the trajectory stays within the full
  radius of the centre's place at the start (`TrajectoryFilter.TrajectoryRightExact`), which shows at its samples in
  the period and at the two ends (`TrajectoryFilter.NearShowsAtMarks`).
- The answer for a cone is determined: 2 and 0 are given exactly under the conditions `Sure` and `Cleared` of
  `CylinderFilter`, and 1 otherwise. 2 says that the disc lies inside the query at some instant, and is always given
  then if the query is one instant, or the common period is more than one, not slow, and growth is at least 1e-7 or the
  radius 0 (`CylinderFilter.SureIffInside`). Slower growth counts as full radius throughout;
  `SlowMotion.MissesSlowGrowth` gives cones inside the query at the start that are only answered "maybe".
- The queue of the external merge puts a greatest record on top. Of two or more files, every merge, and everything the
  sorter makes of its runs, is ascending exactly if all records have one key (`MergeOrder.MergeAscendingIffOneKey`,
  `MergeOrder.SortAscendingIffOneKey`). With one buffer page a pass only moves the first file to the back
  (`ExternalSorter.MergeFirst`), so the passes never end (`MergeOrder.OnePageNeverEnds`); hence the two buffer pages
  asked for below.
- Leaves read from their pages have no box slots, and lookups read every node from its page. So on a bulk-loaded tree a
  lookup finds nothing, and it needs an unset box exactly if a leaf it comes to has an entry with the number sought,
  which is always so when it looks for a stored box (`TreeLookup.FindLeaf`, `TreeLookup.LoadedLookup`). With the slots
  set everything stored is found (`TreeLookup.BoxedIsFound`), unless the box sought only nearly equals the stored one
  (`TreeLookup.NearlyEqualIsMissed`).
- Sibling links are made when the second level is built, so a tree that is a single leaf keeps the raw 0/1 flags;
  without link storing neither flags nor links are written, and entries read back -1 (`BulkTree.Loaded`). With one
  child per index node the level loop cannot end unless one leaf is enough (`BulkTree.SingleChildNeverShrinks`).
- A stream over a store whose only trajectory has number 0 delivers nothing (`SbbStream.XSbbStream.Drain`).
- The plain page layout returns a range correctly exactly if the first sample is not the last on its page; the
  overlapping layout exactly if the range is not just the final sample at the start of a page that was never
  written (`TrajectoryStore.TrajStore.LoadTraj`).
- With write-back, a store to a page that is not in use is accepted silently; those are the only operations on
  which the buffer differs from the bare store (`PageBuffer.RandomEvictionsBuffer.StoreByteArray`).
- Two moving boxes are said to meet "never" exactly if they do not meet, but for a touch at one instant that a dimension
  leaves as the end of the contact so far (`MovingRegions.IntersectsRegionInTime`); `MovingRegions.TouchAtEndIsNever`
  gives such a touch. The sweep copies bounds between boxes as they stand. Over the contact its boxes are the
  intersection exactly if both start at the same time, or one holds the other, or every bound of the second box stands
  still, or is not further in than the first's at either end of the contact and not the same
  (`SharedArea.GetIntersectingAreaInTime`). `SharedArea.StartingApartGoesWrong` gives two boxes whose shared area comes
  out as nothing positive, although they share a positive extent.
- For speeds of at most 1e-9 the box of a cone is that of its two ends, and holds the disc exactly if there is none or
  the centre outruns it on both axes (`MovingCone.GetxMBR`).
- Point-count segmentation makes proper segments exactly for counts above one (`Simplification.FP`).

## Model

| member | source | states |
|---|---|---|
| Boxes.ContainsIffPoints | src/spatialindex/xMBR.cc:241-295 | a box holds another exactly if it holds every point of it |
| Boxes.CombineIsLeast | src/spatialindex/xMBR.cc:352-370 | a combined box lies in another exactly if both parts do |
| Quadratics.Below0Exact | src/spatialindex/xCylinder.cc:221-227 | the numeric test holds exactly if the quadratic is at most zero somewhere on the closed range |
| RelativeMotion.MinSEDIsMinimum | src/spatialindex/xTrajectory.cc:688-716 | exactly motions over different periods are refused; otherwise the distance is attained at some instant, and at no instant are the points nearer, unless they move relative to each other by less than 1e-7 in the square, and then not by more than they move |
| RelativeMotion.ChordAttained | src/spatialindex/xCylinder.cc:274-301 | the distance found from the chord coefficients is the distance at some instant of the range |
| RelativeMotion.ChordBelow | src/spatialindex/xCylinder.cc:274-301 | no instant of the range is closer than the distance found, up to the slack of slow motion |
| RelativeMotion.StillBound | src/spatialindex/xCylinder.cc:278-279 | how far a motion counted as still can bring the object |
| MovingCone.GetxMBC | src/spatialindex/xTrajectory.cc:257-295 | the cone's radius and speed are the least that bound every sample's offset and both deviation speeds |
| MovingCone.ConeEncloses | src/spatialindex/xMBC.cc:123-140 | at every instant, not only at samples, the trajectory is within the cone's radius of its moving centre |
| MovingCone.ConeWellFormed | src/spatialindex/xTrajectory.cc:273-294 | the radius is at most the speed times half the duration, so the cone has its three ranges |
| MovingCone.GetxMBR | src/spatialindex/xMBC.cc:443-455 | the box holds the centre, and for speeds above 1e-9 the whole disc, at every instant, and nothing more than its four parts need; for lower speeds it holds the disc exactly if there is none or the centre moves along both axes at least as fast as the disc grows |
| CylinderFilter.ConeTestExact | src/spatialindex/xCylinder.cc:317-327 | the squared test at one instant equals the comparison of the centre's distance with a linear bound |
| CylinderFilter.LowExact | src/spatialindex/xCylinder.cc:310-329 | on the opening cone both tests are true exactly if the disc lies inside, or meets, the query disc at some instant of the range |
| CylinderFilter.HighExact | src/spatialindex/xCylinder.cc:330-345 | the same on the closing cone |
| CylinderFilter.CheckRelInstant | src/spatialindex/xCylinder.cc:246-255 | the answer for a query at one instant |
| CylinderFilter.CheckRelCone | src/spatialindex/xCylinder.cc:244-348 | 2 and 0 are given exactly under stated conditions on the moving disc, so the answer is determined; 0 means the disc meets the query at no instant of the common period, less the drift of slow motion, 2 that it lies inside at some instant |
| CylinderFilter.AnswersTell | src/spatialindex/xCylinder.cc:278-345 | what the answers mean in numbers: if the centre moves by at least 1e-7 in the square, or not at all, 0 means that the disc never meets the query, and 2 is given exactly if it lies inside at some instant, for growth of at least 1e-7; if it moves less, 0 is given exactly if it does not start within the two radii |
| CylinderFilter.SureIffInside | src/spatialindex/xCylinder.cc:289-345 | 2 means inside at some instant, and exactly that when the filter can resolve motion and growth |
| CylinderFilter.ClearedIffNothing | src/spatialindex/xCylinder.cc:306-345 | the three tests for a meeting all fail exactly if the disc never meets the query and the centre is not close at an end while nearest outside the full-radius part; for growth that is not seen exactly if it is never close |
| FilterSoundness.CheckRelLine | src/spatialindex/xCylinder.cc:229-240 | 2 exactly if the segment comes within the radius; if it moves by less than 1e-7 in the square, but moves, exactly if it starts within the radius |
| FilterSoundness.BoxDistanceExact | src/spatialindex/xMBR.cc:298-312 | a box is within a distance of a point exactly if some point over it is |
| FilterSoundness.CornersExact | src/spatialindex/xCylinder.cc:212-217 | the four corner tests hold exactly if every point over the box is inside the query disc |
| FilterSoundness.CheckRelBox | src/spatialindex/xCylinder.cc:208-219 | both directions of every answer for a box |
| FilterSoundness.CheckRel | src/spatialindex/xCylinder.cc:351-355 | the finest part of the shape decides, with that part's guarantees |
| FilterSoundness.TrajectoryBox | src/spatialindex/xTrajectory.cc:249-254 | the trajectory's box is the least that holds its samples |
| FilterSoundness.SubtrajToSBB | src/spatialindex/xTrajectory.cc:1657-1663 | the shape of a segment is its least box and the cone of its samples, which has its three ranges |
| FilterSoundness.BoxHoldsPolyline | src/spatialindex/xTrajectory.cc:249-254 | the box of the samples holds the polyline between them too |
| FilterSoundness.ZeroMeansClear | src/spatialindex/xCylinder.cc:204-355 | answer 0 for a trajectory's shape: the trajectory is never within the radius during the period, less the drift of slow motion |
| FilterSoundness.TwoMeansVisit | src/spatialindex/xCylinder.cc:204-355 | answer 2: the trajectory really is within the radius at some instant of the period |
| TrajectoryFilter.FilterTrajectory | src/spatialindex/xCylinder.cc:204-355 | from samples to shape to answer: 0 means the trajectory is never within the radius, without any slack unless the period is slow and it does not stay near, and 2 that it is at some instant |
| SlowMotion.LineRightExact | src/spatialindex/xCylinder.cc:229-240 | on a segment "clear" is right for every radius exactly if the period is not slow or the segment leads away from the query centre at its start |
| SlowMotion.StartNearestIffAway | src/spatialindex/xTrajectory.cc:688-716 | the start of a motion is its nearest point exactly if it leads away there |
| SlowMotion.ConeRightExact | src/spatialindex/xCylinder.cc:278-303 | on a cone "clear" is right for every query of a period exactly if it is not slow or the centre never moves farther from its start than the disc falls short of its full radius |
| SlowMotion.CoveredShowsAtTwo | src/spatialindex/xMBC.cc:123-140 | that condition holds throughout exactly if it holds at the end and when the disc begins to shrink |
| TrajectoryFilter.TrajectoryRightExact | src/spatialindex/xCylinder.cc:278-303 | for the trajectory "clear" is right for every query of a period exactly if it is not slow or the trajectory stays within the full radius of where the centre starts |
| TrajectoryFilter.NearShowsAtMarks | src/spatialindex/xTrajectory.cc:257-295 | that holds at every instant exactly if it holds at the samples in the period and at its two ends |
| SlowMotion.MissesSlowMotion | src/spatialindex/xCylinder.cc:278-303 | a family of queries for which cone and segment can only be answered "clear" although the object arrives at the query centre |
| SlowMotion.MissesSlowGrowth | src/spatialindex/xCylinder.cc:258-263 | cones that lie inside the query at the start and are only answered "maybe" |
| Segmenters.ISS | src/spatialindex/xTrajectory.cc:1666-1742 | the pieces tile the trajectory, share ends, follow it and have the least sample ranges; a piece is its two ends and the samples between; every end but the last is at a cut, one length after the one before or two after a hit, at the next sample if that is hit, else at the last sample before if within the tolerance, else at the next if within it, else at the place between; what is left is the last piece; lengths of pieces lie between one less twice the tolerance and two plus the tolerance; fewer than two samples are refused |
| Segmenters.Cut | src/spatialindex/xTrajectory.cc:1683-1732 | each of the four ways of ending a segment is the one the cut asks for, keeps the tiling, and moves the next cut on by one length, or two after a hit |
| Segmenters.CutsDecide | src/spatialindex/xTrajectory.cc:1666-1742 | there is only one way to cut a trajectory like that: the conditions determine all cuts and pieces |
| Segmenters.MadeUpIsFar | src/spatialindex/xTrajectory.cc:1692-1721 | an end that is no sample is at the cut, and no sample is within the tolerance of it |
| Segmenters.PieceIsTrajectory | src/spatialindex/xTrajectory.cc:1719-1721 | within a piece's span the piece is where the trajectory is, interpolated cut points included |
| Segmenters.PiecesCover | src/spatialindex/xTrajectory.cc:1666-1742 | every instant of the trajectory falls into some piece |
| Simplification.FindMaximumDistance | src/spatialindex/xTrajectory.cc:298-317 | the first inner point of greatest deviation |
| Simplification.SimplifyWithRDP | src/spatialindex/xTrajectory.cc:319-347 | a subsequence with both ends in which every dropped point is closer than epsilon to the time-synchronised motion between its kept neighbours, and every inner point kept is at least epsilon off the motion between some two points around it |
| SimplifiedPath.StaysNear | src/spatialindex/xTrajectory.cc:319-347 | at every instant, not only at samples, the simplified trajectory is within epsilon of the original |
| Simplification.WorstPath | src/spatialindex/xTrajectory.cc:361-371 | the greatest deviation over all inner points of all parts, the first part and the first point where it is attained; all parts are exact if it is zero |
| Simplification.SimplifyWithRDPN | src/spatialindex/xTrajectory.cc:351-388 | parts that share ends and rejoin to the input, reached from the whole by greedy steps: each adds a cut at the first of the points farthest off the motion of their part, until there are as many parts as asked for or all points are on their motions; refused exactly when there are too few points |
| Simplification.GreedyDecides | src/spatialindex/xTrajectory.cc:351-388 | the points and the number asked for determine the partition |
| Simplification.RDP | src/spatialindex/xTrajectory.cc:1932-1955 | never refused; its pieces are the parts that greedy splitting makes, for the number of whole lengths that fit, but no more than there are steps; the sample ranges chain and the pieces tile the trajectory |
| Simplification.FP | src/spatialindex/xTrajectory.cc:1881-1908 | a proper segmentation exactly if the point count is above one, and then every piece but the last is closed as soon as it has that many points |
| SegmentFilter.AllClear | src/spatialindex/xCylinder.cc:204-355 | if every segment's shape is answered 0, the whole trajectory is clear of the query |
| SegmentFilter.SomeSure | src/spatialindex/xCylinder.cc:204-355 | if some segment's shape is answered 2, the trajectory visits the query |
| SegmentFilter.TrajectoryHoldsPiece | src/spatialindex/xTrajectory.cc:1666-1742 | a piece is nowhere but on the trajectory |
| SegmentFilter.SegmentShapes | src/spatialindex/xTrajectory.cc:1687-1738 | the segments are cut as said, and the stored shapes are their least boxes and their cones |
| Phases.CutPoint | src/spatialindex/xTrajectory.cc:719-750 | a cut point is on the motion, strictly between its ends, and exactly on the side |
| Phases.CutPass | src/spatialindex/xTrajectory.cc:760-771 | one pass keeps the route, leaves every piece clear of the side and of all sides dealt with before, cuts only on the sides, and cuts one piece at most |
| Phases.CutByPhase | src/spatialindex/xTrajectory.cc:752-812 | the pieces lead from one end to the other, five at most, with every joint on the motion and on a side, and each has a phase from 1 to 9 |
| Phases.CutIffCrosses | src/spatialindex/xTrajectory.cc:724-728 | a piece is cut exactly if its ends are on different sides of the line, each at least 1e-7 from it |
| Phases.PhaseExact | include/spatialindex/xTrajectory.h:310-331 | the phase says exactly which of the three bands is taken in each coordinate: between if both ends are, or else below, or else above, with 1e-7 to spare |
| Phases.PhaseExists | include/spatialindex/xTrajectory.h:310-331 | a piece clear of all four sides has a phase despite the tolerances |
| Phases.PhaseHolds | include/spatialindex/xTrajectory.h:310-331 | the phase tells where the whole piece lies |
| ExternalSorter.SortRecords | src/xrtree/BulkLoader.cc:145 | stands for the library sort: an ascending arrangement of the same records |
| ExternalSorter.SortDimensions | src/xrtree/BulkLoader.cc:67-73 | records are compared by the sum of their bounds in time, then y, then x |
| ExternalSorter.ReadPage | src/xrtree/BulkLoader.cc:214-228 | a page read loses nothing, and reads exactly a page or what is left, which it then knows |
| ExternalSorter.TopOf | src/xrtree/BulkLoader.h:87-94 | the queue's top is a greatest record |
| ExternalSorter.NextHead | src/xrtree/BulkLoader.cc:239-262 | a file that still has records hands out its next one; a page is read exactly if none is in memory |
| ExternalSorter.MergePass | src/xrtree/BulkLoader.cc:195-265 | every step of a merge takes a greatest head; the output is the multiset of the inputs |
| ExternalSorter.MergeConserves | src/xrtree/BulkLoader.cc:232-263 | at every moment the output so far and the unread rests make up the inputs |
| MergeOrder.MergeAscendingIffOneKey | src/xrtree/BulkLoader.h:87-94 | every merge of at least two files comes out ascending exactly if all records have one key |
| MergeOrder.SortAscendingIffOneKey | src/xrtree/BulkLoader.cc:195-283 | what the passes can make of at least two runs is always ascending exactly if all records have one key |
| MergeOrder.OnePageNeverEnds | src/xrtree/BulkLoader.cc:195-283 | with one buffer page the number of files is the same after any number of passes |
| ExternalSorter.PassesConserve | src/xrtree/BulkLoader.cc:195-283 | whatever the passes make of the runs has exactly their records |
| ExternalSorter.MergeFirst | src/xrtree/BulkLoader.cc:195-282 | one pass is a complete merge of the first files, conserves all records, and leaves fewer files exactly if there are at least two buffer pages; with one it copies the first file |
| ExternalSorter.Sorter.Insert | src/xrtree/BulkLoader.cc:133-156 | the record comes after those inserted, in order; a full buffer becomes a sorted run; refused after sorting |
| ExternalSorter.Sorter.MergeAll | src/xrtree/BulkLoader.cc:195-283 | the passes end in one file that they can make of the runs, with all records |
| ExternalSorter.Sorter.Sort | src/xrtree/BulkLoader.cc:158-287 | what will be delivered is what the passes can make of the ascending arrangements of the full buffers, in the order of insertion, and of the rest; it is from a file if anything was spilled, and ascending when at most one run was |
| ExternalSorter.SortsConserve | src/xrtree/BulkLoader.cc:133-287 | that has exactly the records inserted, and is ascending if they fit into the buffer |
| ExternalSorter.Sorter.GetNextRecord | src/xrtree/BulkLoader.cc:289-314 | delivers the records in order, then the end of the stream; refused before sorting |
| BulkLoader.MbrHolds | src/xrtree/Node.cc:293-307 | a node's box holds every entry box |
| BulkLoader.MbrIsLeast | src/xrtree/Node.cc:293-307 | and nothing more than its entries need |
| BulkLoader.CreateNode | src/xrtree/BulkLoader.cc:608-626 | the node of the collected records: entries in order, box combined |
| BulkLoader.PackedCount | src/xrtree/BulkLoader.cc:412 | full nodes but perhaps the last are exactly the records divided by the fanout, rounded up |
| BulkLoader.RTree.WriteNew | src/xrtree/xRTree.cc:581-626 | a node without identifier gets a page not in use, which keeps of it what Node.cc writes and reads back |
| BulkLoader.Loader.RecordParts | src/xrtree/BulkLoader.cc:448-452 | every box of a new leaf is mapped to it, and no other mapping changes |
| BulkLoader.Loader.LinkChildren | src/xrtree/BulkLoader.cc:453-478 | every leaf collected is linked once and stored again, all other nodes stay |
| BulkLoader.Loader.PackRecords | src/xrtree/BulkLoader.cc:430-525 | all delivered records go into nodes as they come, all full but perhaps the last |
| BulkLoader.Loader.TakeSlab | src/xrtree/BulkLoader.cc:534-543 | moves the next records of a slab in order, all that are left at the end |
| BulkLoader.Loader.CutSlabs | src/xrtree/BulkLoader.cc:527-551 | every next slab of whole nodes is sorted along the next axis and tiled in the same way, and the packing holds across the recursion |
| BulkLoader.Loader.CreateLevel | src/xrtree/BulkLoader.cc:400-552 | the nodes are what sort-tile-recursive makes of the delivered records: full nodes as they come along the last axis, or when slabs do not pay, else slabs; each record in exactly one new node, all nodes full but perhaps the last made, one record per node for the next level, earlier nodes untouched but for links |
| Counting.RootUpIsLeast | src/xrtree/BulkLoader.cc:425 | the number of slabs along a later axis is the least whose power reaches the number of nodes |
| BulkLoader.TiledConserves | src/xrtree/BulkLoader.cc:400-552 | tiling keeps exactly the records |
| BulkLoader.SlabsInOrder | src/xrtree/BulkLoader.cc:527-551 | of records in order along an axis none in a slab comes after one in a later slab |
| BulkLoader.NodesInOrder | src/xrtree/BulkLoader.cc:430-525 | along the last axis none in a node comes after one in a later node |
| BulkTree.TreeHoldsItems | src/xrtree/Node.cc:293-307 | the box of a node holds every box stored anywhere below it |
| BulkTree.LevelItems | src/xrtree/BulkLoader.cc:440-446 | the nodes of a level hold what the records of the level stand for |
| BulkTree.NodeIsWell | src/xrtree/BulkLoader.cc:608-626 | a new node is the root of a complete tree whose boxes nest |
| BulkTree.OneNodeIffFits | src/xrtree/BulkLoader.cc:377-394 | a level has one node exactly if a tree of that height can hold everything |
| BulkTree.SingleChildNeverShrinks | src/xrtree/BulkLoader.cc:377-394 | with a single child per index node the level loop makes no progress |
| BulkTree.LinksResolved | src/xrtree/BulkLoader.cc:453-478 | after the second level each leaf entry names the new leaves that hold its neighbours, or -1 |
| BulkTree.FlagsUnresolved | src/xrtree/Node.cc:143-157 | until a second level links them, entries keep the raw flags if the tree stores links, and read back -1 if it does not |
| BulkTree.LeavesUnboxed | src/xrtree/Node.cc:63-166 | no stored leaf entry has its box slot, and with links stored no box is in two leaves |
| BulkTree.BuildLevel | src/xrtree/BulkLoader.cc:377-394 | one round tiles the delivered records into stored nodes, hands their records on in order, and keeps the invariant of the whole load |
| Layers.LayersGrow | src/xrtree/BulkLoader.cc:377-394 | a new level on top of tiled levels leaves all levels tiled and stored, but for links |
| BulkTree.BulkLoadUsingSTR | src/xrtree/BulkLoader.cc:324-398 | ends with one root of a tree of new nodes; each level is the tiling of the records of the level below, the lowest of the data, sorted by time; the leaves hold exactly the stream, each box in one leaf, boxes nest, the height is the least possible, the links lead to the neighbours' new leaves; an empty stream is refused |
| SbbStream.StreamIsClosed | src/storagemanager/xStore.cc:545-569 | numbers are distinct and every flagged neighbour is in the stream |
| SbbStream.NeighbourIsNext | src/storagemanager/xStore.cc:545-569 | the next number after a flagged segment is the next segment of the same trajectory |
| SbbStream.XSbbStream.GetNext | src/storagemanager/xStore.cc:545-569 | the next segment in order, numbered and flagged |
| SbbStream.XSbbStream.Drain | src/storagemanager/xStore.cc:541-543 | the stream over the numbers from 0 to the last is complete, unless 0 is the last |
| SbbStream.IndexTrajectories | src/xrtree/BulkLoader.cc:324-398 | from cut trajectories to an index whose links lead as the stream goes; with a single trajectory the load is refused and the tree stays |
| SbbStream.WalkTrajectory | src/xrtree/BulkLoader.cc:453-478 | from the entry of a trajectory's first segment the next links lead through leaves of the tree to all its segments in order and end, and the previous links lead back |
| SbbStream.NextWalkVisits | src/xrtree/BulkLoader.cc:453-478 | whoever follows the next links from there to their end has visited exactly those segments in order |
| SbbStream.SameStop | src/xrtree/BulkLoader.cc:448-452 | an entry and its leaf are determined by the entry's number |
| TreeLookup.FindInLeaf | src/xrtree/Leaf.cc:55-65 | stops at the first entry with the number sought whose bounds all differ by no more than the machine epsilon, or whose box is not set |
| TreeLookup.FindLeaf | src/xrtree/Index.cc:85-103 | finds nothing exactly if no entry with the number sought, in a leaf it comes to, agrees or has no box; the path buffer grows by the identifiers to the leaf's parent, and is restored if nothing is found |
| TreeLookup.StoredIsReached | src/xrtree/Index.cc:85-103 | in a tree whose boxes nest everything stored is come to by any part of its box |
| TreeLookup.ReachedIsStored | src/xrtree/Index.cc:85-103 | where a lookup stops an item of that number is stored, and with that box if the slot is set |
| TreeLookup.BoxedIsFound | src/xrtree/Index.cc:85-103 | with all box slots set everything stored is found by its exact box, and no unset box is ever needed |
| TreeLookup.NearlyEqualIsMissed | src/xrtree/Leaf.cc:61 | a tree in which a box that equals the stored one up to the machine epsilon is not found |
| TreeLookup.LoadedLookup | src/xrtree/Node.cc:63-113 | on a bulk-loaded tree a lookup finds nothing; it needs an unset box only for the number of a stored box, and always when it looks for that box or a part of it |
| TreeLookup.Fixed | src/xrtree/Index.cc:294-318 | fixing one entry leaves at most the entry for that node stale |
| TreeLookup.Repairer.AdjustTree | src/xrtree/Index.cc:283-327 | after a child's box has changed, all boxes and entries are right again; each node on the path keeps its box if that holds the new box below it, and else gets that of its entries; no other node is touched |
| TreeLookup.BoxOfIsLeast | src/xrtree/Index.cc:302-315 | that is the least box that holds them |
| KineticLines.CrossIsZero | src/spatialindex/MovingRegion.cc:403-417 | the crossing time extrapolated to time 0 is where the gap closes, and nowhere else |
| MovingRegions.StaysAboveExact | src/spatialindex/MovingRegion.cc:472-487 | the crossing tests hold exactly if a bound stays ahead throughout the window |
| MovingRegions.ContainsRegionInTime | src/spatialindex/MovingRegion.cc:444-491 | true exactly if the other box is contained at every instant of a window of positive length within the lifetime |
| MovingRegions.ShrinkDim | src/spatialindex/MovingRegion.cc:381-422 | one dimension's new bounds are exactly the instants of contact in it |
| MovingRegions.IntersectsRegionInTime | src/spatialindex/MovingRegion.cc:346-432 | the interval returned is exactly the set of instants at which the boxes meet in all dimensions, or the whole period if one holds the other; refused exactly if they do not meet, but for a touch at one instant left as the end of the contact so far |
| MovingRegions.TouchAtEndIsNever | src/spatialindex/MovingRegion.cc:381-400 | two boxes that touch at the end of the window and are refused |
| SweptArea.SweptSplits | src/spatialindex/MovingRegion.cc:1121-1150 | the area formulas in one to three dimensions are additive over time |
| SweptArea.SweptBetween | src/spatialindex/MovingRegion.cc:1121-1150 | and lie between the duration times the least and the greatest volume |
| SweptArea.AreaAdds | src/spatialindex/MovingRegion.cc:1108-1155 | the computed areas add up over parts longer than the machine epsilon |
| SweptArea.AreaBetween | src/spatialindex/MovingRegion.cc:1108-1155 | the computed area is bounded by the volumes, and zero for shorter times |
| KineticSweep.BoundIsClamped | src/spatialindex/MovingRegion.cc:274-292 | a bound at a time outside the lifetime is that at the nearest time within |
| KineticSweep.CopyNeedsSameStart | src/spatialindex/MovingRegion.cc:918-978 | a copied bound is right exactly if the boxes start together or the bound stands still |
| KineticSweep.StartBound | src/spatialindex/MovingRegion.cc:918-978 | the owner of a bound at the start and the event at which it passes on |
| KineticSweep.StartSweep | src/spatialindex/MovingRegion.cc:911-979 | every bound is rightly owned until its event, and there is at most one event for each |
| KineticSweep.ChosenUntil | src/spatialindex/MovingRegion.cc:987-1007 | until the next event every bound of the moving box is that of the box that leads, as it stands there |
| KineticSweep.SharedIffRight | src/spatialindex/MovingRegion.cc:987-1007 | such a box is the greater of the lows and the lesser of the highs at every instant exactly if every bound comes from a box with the same start or stands still |
| KineticSweep.PassBound | src/spatialindex/MovingRegion.cc:998-1009 | handling an event keeps every bound rightly owned |
| KineticSweep.Sweep | src/spatialindex/MovingRegion.cc:911-1016 | the stretches tile the contact interval, each with its bounds rightly chosen and as the sweep chooses ties, and the result is the sum of their areas |
| KineticSweep.SumBetween | src/spatialindex/MovingRegion.cc:984-1016 | over exact stretches the sum lies between the least and the greatest shared volume times the contact time, but for one machine epsilon a stretch |
| SharedArea.SweepExactIff | src/spatialindex/MovingRegion.cc:911-1016 | if the boxes start apart, the box of every stretch is the intersection exactly if every bound of the second box stands still, or is not further in than the first's at either end of the contact and not the same |
| SharedArea.GetIntersectingAreaInTime | src/spatialindex/MovingRegion.cc:866-1016 | zero if the boxes hardly meet, else that sum over exactly the contact interval; its boxes are the intersection exactly if the input is sharp: same start, one holding the other, or that condition; other dimensions are not supported |
| SharedArea.StartingApartGoesWrong | src/spatialindex/MovingRegion.cc:911-1016 | two boxes that share a positive extent, for which the sum over any stretches of the sweep is not positive |
| DynamicTimeWarping.BestIsLower | include/spatialindex/dtw.h:123-131 | no monotone warping path costs less than the table entry of its end |
| DynamicTimeWarping.DistanceIsLower | include/spatialindex/dtw.h:71-102 | the distance is at most the cost of any alignment |
| DynamicTimeWarping.DistanceSymmetric | include/spatialindex/dtw.h:71-102 | swapping the curves does not change the distance |
| DynamicTimeWarping.ComputePNorm | include/spatialindex/dtw.h:48-54 | the loop takes the root of the sum of the powers of the differences |
| DynamicTimeWarping.NormIsRoot | include/spatialindex/dtw.h:38-54 | its p-th power is the sum of the p-th powers; in one dimension it is the distance for every p |
| DynamicTimeWarping.NormIsEuclidean | include/spatialindex/dtw.h:38-54 | for p = 2 it is the nonnegative root of the sum of the squared differences |
| DynamicTimeWarping.NormIsManhattan | include/spatialindex/dtw.h:38-54 | for p = 1 it is the sum of the differences |
| DynamicTimeWarping.NormSeparates | include/spatialindex/dtw.h:48-54 | for p = 2 only equal points have distance zero |
| DynamicTimeWarping.NormTriangle | include/spatialindex/dtw.h:48-54 | for p = 2 the detour over a third point is never shorter |
| DynamicTimeWarping.DistanceOfPoints | include/spatialindex/dtw.h:71-102 | curves of one point each are as far apart as the points |
| DynamicTimeWarping.VectorAssemble | include/spatialindex/dtw.h:115-133 | fills the table with the least costs from its corner on |
| DynamicTimeWarping.DistanceOnly | include/spatialindex/dtw.h:71-102 | gives the same distance as the class, or refuses different dimensions |
| DynamicTimeWarping.DTW.Path | include/spatialindex/dtw.h:208-242 | ends with a warping path between the corners whose cost is exactly the distance; each step back goes to the cheapest neighbour, of several to the one above, or else the left one |
| DynamicTimeWarping.Align | include/spatialindex/dtw.h:169-198 | the table and distance of the constructed object; different dimensions are refused |
| TrajectoryStore.TrajStore.WritePages | src/storagemanager/xStore.cc:266-298 | writes exactly the pages of the layout, overlapping or plain |
| TrajectoryStore.TrajStore.StoreTraj | src/storagemanager/xStore.cc:266-299 | the trajectory is on its own consecutive pages and all others stay; a number that is taken keeps its earlier trajectory; short ones are skipped |
| TrajectoryStore.OverlapStep | src/storagemanager/xStore.cc:439-458 | one page adds the next samples, each once and in order |
| TrajectoryStore.PlainStep | src/storagemanager/xStore.cc:468-484 | the same in the plain layout, with the shift when the first page is one too far |
| TrajectoryStore.TrajStore.LoadOverlapping | src/storagemanager/xStore.cc:431-460 | returns exactly the range from the trajectory's own pages, exactly if it is not at the seam |
| TrajectoryStore.TrajStore.LoadPlain | src/storagemanager/xStore.cc:461-487 | returns exactly the range exactly if the first sample does not end a page; reads consecutive pages of its own |
| TrajectoryStore.TrajStore.LoadTraj | src/storagemanager/xStore.cc:422-487 | the round trip of what was stored, in the store's layout |
| PageBuffer.StepIsMap | src/storagemanager/MemoryStorageManager.cc:62-135 | the store behaves as a map: fresh pages are fresh, one page changes at a time, pages not in use are refused |
| PageBuffer.LastDeletedFirst | src/storagemanager/MemoryStorageManager.cc:81-135 | a new page right after a delete is the page deleted, and the store as if that had been replaced; a page never handed out before is handed out exactly if none is deleted |
| PageBuffer.MemoryStorageManager.LoadByteArray | src/storagemanager/MemoryStorageManager.cc:62-79 | the bytes of a page in use, or a refusal |
| PageBuffer.MemoryStorageManager.StoreByteArray | src/storagemanager/MemoryStorageManager.cc:81-116 | reuses the last deleted page for a new one, replaces pages in use |
| PageBuffer.MemoryStorageManager.DeleteByteArray | src/storagemanager/MemoryStorageManager.cc:118-135 | frees a page in use |
| PageBuffer.MemoryStorageManager.Run | src/storagemanager/MemoryStorageManager.cc:62-135 | a run of operations on the bare store |
| PageBuffer.OverlayRemove | src/storagemanager/RandomEvictionsBuffer.cc:94-101 | evicting, with a write back if dirty, changes nothing that is seen |
| PageBuffer.RandomEvictionsBuffer.RemoveEntry | src/storagemanager/RandomEvictionsBuffer.cc:81-102 | whatever entry is evicted, the view stays, the other entries stay, and the bare store changes at most in the evicted page |
| PageBuffer.RandomEvictionsBuffer.LoadByteArray | src/storagemanager/Buffer.cc:72-88 | returns what the bare store would; hits are counted; a page that was not buffered is afterwards, clean, in room made by at most one eviction |
| PageBuffer.RandomEvictionsBuffer.StoreByteArray | src/storagemanager/Buffer.cc:90-120 | acts as the bare store would, exactly but for write-back stores to pages not in use; the page is buffered afterwards, dirty exactly in write-back, and then the bare store changes only in evicted pages; a write-back store to a buffered page counts as a hit |
| PageBuffer.RandomEvictionsBuffer.DeleteByteArray | src/storagemanager/Buffer.cc:122-132 | acts as the bare store would, and drops exactly the entry of the page |
| PageBuffer.RandomEvictionsBuffer.ClearBuffer | src/storagemanager/Buffer.cc:134-149 | the bare store then holds everything that was seen |
| PageBuffer.RandomEvictionsBuffer.Run | src/storagemanager/Buffer.cc:72-149 | any run of operations, with any evictions, answers exactly as the bare store |

## Left out

- Floating-point rounding: all arithmetic is on exact reals, so results that hang on the last bits are not covered.
- Boxes, cones and moving regions are values: their in-place updates give new values, so aliasing between boxes is
  not captured.
- MovingCone.GetxMBC: asks for strictly increasing sample times.
- FilterSoundness.ZeroMeansClear: weaker by the drift of motion counted as still, because the code takes such motion
  for standing; SlowMotion shows that the stronger statement is false and when it holds.
- Segmenters.ISS: lengths of at most 1e-7 are not covered, because a cut could then count as exactly at a sample
  again and again.
- SharedArea.GetIntersectingAreaInTime: both boxes must not shrink, which the code asserts.
- ExternalSorter.Sorter.Sort: asks for two buffer pages when there is anything to merge, because the pass loop does
  not end otherwise; all records of one sorter share its sort dimension, and the check for mixed dimensions is left
  out.
- BulkTree.BulkLoadUsingSTR: asks for distinct box numbers when links are stored, which the stream guarantees, and
  for two children per index node unless one leaf is enough. More than three axes, for which the code has no sort key,
  are not told from three.
- TreeLookup.FindLeaf: what the code does when it needs an unset box is not modelled further; the answer says that
  it does. If a leaf has set and unset slots, which does not happen in a tree read from its pages, either may be
  come to first in another leaf.
- SbbStream.XSbbStream.Drain: the segments of every number up to the last are given, at least one each, because the
  stream asks for all those numbers and takes the first segment unchecked; what the store answers for a number it
  does not have, and the renumbering of large numbers in `loadFile`, are not modelled.
- PageBuffer.RandomEvictionsBuffer.StoreByteArray: what follows after a silently accepted store to a page not in use
  is not modelled; nor are `flush` and the destructor, which leave freed entries behind.
- TrajectoryStore.TrajStore.StoreTraj: the store is never asked to delete, so new pages are consecutive; the SQLite
  table of trajectories is a map that refuses a number it has, as its primary key does.
- The text form of segments in temporary files loses digits; records are opaque here. The compact byte forms of
  shapes and nodes, and the node cache, are not modelled.
- `createLevelT`, which is off by default, and the cost formulas of `trajStat`.
- The other segmenters (`GSS`, `OPTS`, `EveryLine`, `OneBox`), the fake-head and fake-back flags, `locateTime` and
  `fakeTpVector`.
- Insertion with splits, deletion and condensing in the R-tree, two-child `adjustTree`, and the query traversal with
  its priority queues.
- Distances with inverse hyperbolic sines (`line2lineIED` and the bounds built on it), `getRMDTW` bounds, box-to-box
  distance.
- `combineRegionInTime`, projected areas and centre distances of moving regions; `DiskStorageManager`, the C
  interface, statistics and timing; 64-bit identifiers are unbounded integers.
