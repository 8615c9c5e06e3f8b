# Search, storage and schema of the NextBot extension, verified

A Dafny model of the algorithmic core of the SourceMod extension: the A\* search over nav areas with its
intrusive open list, the grid index over those areas, the ordering of animation layers, the client-side
entity manager with its sidecar pool, the byte layouts of sidecars and datamaps, the forest of plugin entity
factories, the metadata lookup, and the preparation of the server's network classes. What the program
changes in place is a class whose methods loop and assign; each method is tied to functions on values, and
the properties are proved of those.

`dafny verify dfyconfig.toml` checks everything.

| files | what they hold |
|---|---|
| OpenList, NavArea, NavGraph | the open list as sequence and as doubly linked list; the enumeration of neighbours |
| AStar, AStarTheorems, SearchRuns, BuildPath, PathCost | one relaxation and the search invariant; optimality, completeness, termination; runs of the main loop; `NavAreaBuildPath` on the areas; the default step cost |
| GridGeometry, GridOrder, GridMesh | boxes and cells; cell and ring orders against full scans; `CToolsNavMesh` |
| Layers | `CBaseAnimatingOverlay` against a sequence sorted by priority |
| FactoryAncestry, FactoryForest, FactoryCallbacks | chains of bases; install, uninstall, plugin unload; plugin code that runs in the middle of an uninstall |
| ClientEntities, ClientRuns, ClientLosses, ClientManager | tokens, records, slots and block pools; runs with callbacks that re-enter; which runs lose blocks; the manager |
| ByteLayout, MachineWords, Sidecar, SidecarReceive, Datamaps | alignment, field layouts along inheritance chains, initialisation, reading and writing |
| MetadataLookup | the bounded depth-first lookup in datamaps and receive tables |
| ServerSchema, SchemaManager | the memoised build of network classes; collect, sort, publish, walk |

## What the proofs say about the code

- `UpdateOnOpenList` sets the tail pointer to the area it moves, not to the one that ends up last. The tail is
  wrong afterwards exactly when the area was last and had something dearer in front of it (`NavAreas.SearchLists.UpdateOnOpenList`,
  `NavAreas.TailGoesWrong`). The search never appends through the tail, so its results do not suffer. The
  comment above `AddToOpenList` says "decreasing"; the order is ascending.
- With a length limit the stored path length of an area is overwritten before the route is rejected as worse
  (extension/sourcesdk/nav_mesh.cpp:420, 423), so nothing is claimed about lengths of paths. Optimality and
  completeness are stated for `maxPathLength <= 0`.
- Optimality is proved for steps that are monotone in the cost so far and pay for the drop of the heuristic. For
  the default step cost `PathCosts` says exactly when that holds. A heuristic that overestimates can mislead the
  search: on a family of three-area meshes the answer is always a cheapest one if and only if the heuristic does
  not overestimate the last step (`SearchRuns.OptimalIffNoOverestimate`).
- Completeness needs more than non-negative steps. A functor that is a dead end at a low cost but not at a higher
  one can hide the target, since only the cheapest way into an area is kept (`SearchRuns.CompleteIffDownwardOpen`).
  For any functor, a search that fails has closed and fully relaxed everything it reached.
- The rectangle query calls nothing for a rectangle that is inverted through the grid. The radius query has no
  guard for an empty grid, and squares negative radii.
- The ring search is a nearest search over the whole mesh exactly for `maxDist` up to one cell length
  (`GridOrder.NearestIffWithinOneCell`). Beyond that it stops one ring after its last improvement and may miss a
  nearer area two cells away. A null answer is right for the whole mesh.
- A block is lost exactly when its record is erased or cleared while it holds it (`ClientLosses.AnyDeletionLoses`,
  `ClientLosses.AnyCleanupLoses` and `ClientLosses.AnyPurgeLoses`, for every state and whatever the callbacks do). An
  entity that is deleted, or a manager that is purged, from inside the remove callback of a cleanup loses the block
  being cleaned up (`ClientLosses.ReentrantDeletionLoses`, `ClientLosses.ReentrantPurgeLoses`). After such a deletion,
  an entity that is tracked again under the same handle and index, without a runtime class, is still answered for
  by the old slot (`ClientLosses.StaleSlotAnswers`). Listeners of a deletion that purge and track the entity again
  under the same handle lose a block too, since the deletion then erases the new record
  (`ClientLosses.PurgingListenersLose`). As long as no callback purges or shuts down and no remove callback deletes,
  nothing is ever lost (`ClientLosses.OrderlyRunLosesNothing`).
- `Uninstall` calls out while the bases of what has gone are still installed. Plugin code that then installs a factory
  on a base in progress leaves it behind, on a base that is no longer installed; in runs whose other uninstalls keep
  clear of what is in progress, that is the only way (`FactoryCallbacks.NoneLeftIff`). A plugin that installs the
  child again may so outlive its own unload, and even close a circle of bases (`FactoryCallbacks.ChildIsLeft`,
  `FactoryCallbacks.CircleOfBases`). Plugin code that uninstalls a sibling of what has just been uninstalled sends the
  loop past the end of its list (`FactoryCallbacks.SiblingOverruns`).
- The start of a factory's data is taken when its description begins. If a base is redefined after that with more,
  the data of the derived factory begin inside the base; if with less, they stick out of the entity
  (`Datamaps.BlocksFitIff`, `Datamaps.StartDecides`).

## Model

| member | source | states |
|---|---|---|
| OpenList.InsertPosUnique | extension/sourcesdk/nav_area.cpp:665-674 | the place in front of the first strictly dearer entry is the only one that splits a list into at most as dear and dearer, so equal costs keep their order of arrival |
| OpenList.InsertKeepsSorted | extension/sourcesdk/nav_area.cpp:664-702 | inserting there keeps an ascending list ascending |
| OpenList.BubbleIsReinsert | extension/sourcesdk/nav_area.cpp:774-808 | decrease-key: where the bubble-up stops is where taking the entry out and inserting it afresh would put it, and the list is ascending again |
| OpenList.MoveUpIsReinsert | extension/sourcesdk/nav_area.cpp:774-808 | the bubble-up is a permutation of the list: remove, then insert |
| OpenList.InsertedIsSorted | extension/sourcesdk/nav_area.cpp:664-702 | wherever an ordered list was split and an entry put in, that is the insertion point, and the list stays ascending |
| OpenList.MovedIsSorted | extension/sourcesdk/nav_area.cpp:774-808 | wherever the one cheaper entry was moved up past the dearer ones, that is its reinsertion, and the list is ascending again; the search puts its list in order by this |
| NavAreas.NextMarker | extension/sourcesdk/nav_area.h:297 | a fresh marker is never zero, also when the 32-bit counter wraps |
| NavAreas.MarkerComesBack | extension/sourcesdk/nav_area.h:297 | a marker that has been used comes back after 2^32 - 1 more searches, and not before |
| NavAreas.SearchLists.ClearSearchLists | extension/sourcesdk/nav_area.cpp:814-823 | afterwards no area is open or closed and the list is empty, given that no stored marker equals the fresh one |
| NavAreas.SearchLists.AddToOpenList | extension/sourcesdk/nav_area.cpp:643-703 | the doubly linked list stays well formed and holds exactly the areas with the master marker; the area is inserted where it splits the list; exactly when the tail pointer is right afterwards |
| NavAreas.SearchLists.AddToOpenListTail | extension/sourcesdk/nav_area.cpp:708-737 | appends, and keeps head, tail and both directions of links right |
| NavAreas.SearchLists.RemoveFromOpenList | extension/sourcesdk/nav_area.cpp:739-769 | an area whose marker is zero is ignored; another one is unlinked from any position and its marker reset; exactly when the tail pointer is right afterwards |
| NavAreas.SearchLists.PopOpenList | extension/sourcesdk/nav_area.h:536-551 | takes the head off, or answers null for an empty list |
| NavAreas.SearchLists.UpdateOnOpenList | extension/sourcesdk/nav_area.cpp:774-808 | the area moves up past exactly the strictly dearer ones; the tail pointer is right afterwards if and only if it was and the area was not last or has nothing dearer in front of it |
| NavAreas.TailGoesWrong | extension/sourcesdk/nav_area.cpp:800-807 | a concrete two-area list on which the decrease-key leaves the tail pointer wrong |
| NavGraphs.NeighborsAreFlattened | extension/sourcesdk/nav_mesh.cpp:224-374 | the neighbour enumeration meets floors by direction, three exits of every ladder up, the bottoms of the ladders down, then the elevator areas: each once, in that order |
| NavGraphs.LinksLeadOn | extension/sourcesdk/nav_mesh.cpp:252-372 | connections north, east, south and west carry these traverse types and the stored length, ladders are climbed up and down with the ladder at hand, and the elevator goes up exactly to areas that are higher |
| NavGraphs.NeighborsInMesh | extension/sourcesdk/nav_mesh.cpp:224-374 | whatever is enumerated is an area of the mesh |
| NavGraphs.NextNeighbor | extension/sourcesdk/nav_mesh.cpp:242-374 | one run of the `searchWhere`/`searchIndex`/`dir`/`ladderTopDir` machine hands out the next neighbour of the flattened list, skips null ladder ends, and ends exactly when nothing is left |
| NavGraphs.FloorTurn | extension/sourcesdk/nav_mesh.cpp:252-288 | one turn among the floor connections hands out one neighbour or advances the direction |
| NavGraphs.LadderTurn | extension/sourcesdk/nav_mesh.cpp:289-349 | one turn among the ladders hands out one neighbour or advances, first up, then down |
| AStar.StepIsFloored | extension/sourcesdk/nav_mesh.cpp:388-409 | a step in numbers: what the functor answers where that adds at least 0.00001 times one more than the way up to there, and else exactly that much more; a dead end exactly for a negative answer; NaN stays usable at 1e30 or more |
| AStar.StepIncreases | extension/sourcesdk/nav_mesh.cpp:388-409 | every step to another area costs strictly more than the way up to there, whatever the functor answers |
| AStar.WalkCostGrows | extension/sourcesdk/nav_mesh.cpp:388-409 | costs never fall along a walk |
| AStar.AcceptedIsNews | extension/sourcesdk/nav_mesh.cpp:377-460 | an accepted relaxation never touches the start, the parent or the area itself, and makes a reached area strictly cheaper |
| AStar.WalkOkExtends | extension/sourcesdk/nav_mesh.cpp:431-459 | a cost that is assigned is the cost of a simple walk from the start |
| AStar.InitialInv | extension/sourcesdk/nav_mesh.cpp:179-194 | the search invariant holds when the start has been opened |
| AStar.RelaxKeepsInv | extension/sourcesdk/nav_mesh.cpp:377-460 | one relaxation keeps the invariant (ordered open list, parent tree, every cost the cost of a simple walk, every closed area relaxed, closest area least), only lowers costs and satisfies its edge |
| AStar.SkippedIsSatisfied | extension/sourcesdk/nav_mesh.cpp:377-382 | not stepping back to the parent or to itself loses nothing |
| AStarTheorems.PopKeepsInv | extension/sourcesdk/nav_mesh.cpp:199-211 | taking the head off keeps the invariant; only the start can be blocked |
| AStarTheorems.CloseKeepsInv | extension/sourcesdk/nav_mesh.cpp:463-464 | closing the expanded area keeps the invariant |
| AStarTheorems.Frontier | extension/sourcesdk/nav_mesh.cpp:197-465 | on any walk from the start there is an open area reached at no more than the walk costs up to there, or the whole walk is closed |
| AStarTheorems.ConsistentAlong | extension/sourcesdk/nav_mesh.cpp:430-432 | a heuristic that no step underpays never overestimates along a walk |
| AStarTheorems.PoppedTargetIsOptimal | extension/sourcesdk/nav_mesh.cpp:213-222 | with monotone steps, a consistent heuristic and no length limit, a popped target costs no more than any walk to it, with reopening allowed |
| AStarTheorems.ExhaustedReachesAll | extension/sourcesdk/nav_mesh.cpp:197-467 | with monotone steps, or dead ends that do not depend on the cost so far: when the open list runs empty, everything that any walk reaches has been reached and closed |
| AStarTheorems.ParentWalkIsSimple | extension/sourcesdk/nav_mesh.cpp:459 | the parents of a reached area lead back to the start along a simple walk over usable connections, through areas no dearer than it |
| AStarTheorems.ParentWalkCost | extension/sourcesdk/nav_mesh.cpp:459 | with monotone steps that walk costs no more than the cost stored in the area, although reopening may have lowered its parents |
| AStarTheorems.FoundPathIsOptimal | extension/sourcesdk/nav_mesh.cpp:213-222 | for a popped target that walk costs exactly what is stored |
| AStarTheorems.RelaxKeepsTreeCovers | extension/sourcesdk/nav_mesh.cpp:377-460 | no stored cost is below what arriving over the parent costs now; relaxation keeps that |
| AStarTheorems.SimpleWalkIsShort | extension/sourcesdk/nav_mesh.cpp:197-465 | a simple walk has fewer connections than the mesh has areas |
| AStarTheorems.WalkIsEdgeSequence | extension/sourcesdk/nav_mesh.cpp:197-465 | the simple walks lie in a finite set |
| AStarTheorems.RelaxShrinksRemaining | extension/sourcesdk/nav_mesh.cpp:377-460 | termination over the reals: an accepted relaxation strictly shrinks the finite set of simple walks that would still be news |
| SearchRuns.RunKeepsInv | extension/sourcesdk/nav_mesh.cpp:197-465 | every run of the main loop, as a sequence of states, keeps the invariant and closes no target |
| SearchRuns.ExhaustedReachesAllIff | extension/sourcesdk/nav_mesh.cpp:197-467 | for any functor: when the open list is empty, everything that any walk reaches has been reached if and only if no connection that is dead at a stored cost, but open at the cost of some walk, leads to an area not reached |
| SearchRuns.FourStatesAreRun | extension/sourcesdk/nav_mesh.cpp:197-467 | on four areas, a run that ends without the target when the functor is a dead end at the lower cost of an area |
| SearchRuns.DetourIsWalk | extension/sourcesdk/nav_mesh.cpp:197-467 | while a walk over non-negative steps reaches the target at the higher cost |
| SearchRuns.CompleteIffDownwardOpen | extension/sourcesdk/nav_mesh.cpp:197-467 | for every dead-end rule of a functor: on the family of these meshes a failed search is always right if and only if what the rule lets through at some cost it lets through at any lower one |
| SearchRuns.ConsistentIsOptimal | extension/sourcesdk/nav_mesh.cpp:213-222 | with monotone steps and a consistent heuristic, every run that comes to a target has found its least cost |
| SearchRuns.ConsistentIffNoOverestimate | extension/sourcesdk/nav_mesh.cpp:388-409 | on three areas, one of them two steps from the start, the heuristic is consistent if and only if it does not overestimate the last step |
| SearchRuns.OptimalIffNoOverestimate | extension/sourcesdk/nav_mesh.cpp:213-222 | on this family of meshes every run that comes to the target has found its least cost, whatever the first steps cost, if and only if the heuristic does not overestimate the last step |
| BuildPaths.PathFinder.Relax | extension/sourcesdk/nav_mesh.cpp:377-460 | the imperative relaxation on the areas refines the step on values (`AStar.StepIsFloored` in numbers), the rejected-after-length-overwritten case included |
| BuildPaths.PathFinder.Improve | extension/sourcesdk/nav_mesh.cpp:431-459 | costs, totals, parent, traverse type and list position of the reached area change as the step on values says, and those of no other area |
| BuildPaths.PathFinder.Expand | extension/sourcesdk/nav_mesh.cpp:224-461 | every neighbour is relaxed exactly once, in the flattened order; the invariant is kept |
| BuildPaths.PathFinder.Turn | extension/sourcesdk/nav_mesh.cpp:197-465 | one turn of the main loop: a target is found, a blocked start is dropped, or an area is expanded and closed |
| BuildPaths.PathFinder.Search | extension/sourcesdk/nav_mesh.cpp:179-467 | the main loop halts on every finite mesh and every functor; what holds when it returns true or false |
| BuildPaths.PathFinder.FindPath | extension/sourcesdk/nav_mesh.cpp:179-467 | true: the stored parents are a walk to a target, and under the named conditions a least-cost one, which with the default cost is one of least weighted length; false: every reached area is closed, no target and fully relaxed, the closest area is least and its parents are a walk back to the start, and under the named conditions no walk reaches a target |
| BuildPaths.PathFinder.NavAreaBuildPath | extension/sourcesdk/nav_mesh.cpp:147-467 | the early answers exactly as coded, and otherwise the answer of `FindPath` to the problem posed by the arguments; what is found is the goal area if it is given and free, else an area that contains the goal position, and when nothing is found no reached area is closer to the goal than the one handed out |
| BuildPaths.HeadIsLeast | extension/sourcesdk/nav_mesh.cpp:213-222 | no walk to the popped target costs less than what is stored in it |
| BuildPaths.EmptyMeansExhausted | extension/sourcesdk/nav_mesh.cpp:197-467 | for any functor: with an empty list, no reached area is a target and none has a connection left to relax |
| BuildPaths.ExhaustedMeansNoWalk | extension/sourcesdk/nav_mesh.cpp:197-467 | then no walk reaches a target, for monotone steps or fixed dead ends |
| PathCosts.TravelIs | extension/natives/nav.cpp:188-197 | what is travelled: the length of the ladder if there is one, else a positive stored length, else the way between the centres |
| PathCosts.FactorTable | extension/natives/nav.cpp:201-211 | in numbers: attribute bit 0 (crouch) adds 20 times the distance, bit 1 (jump) 5 times |
| PathCosts.DefaultCostIsLinear | extension/natives/nav.cpp:183-214 | the default cost is the cost so far plus the travelled distance times a factor that depends on the attributes only |
| PathCosts.WalkCostIsLength | extension/sourcesdk/nav_mesh.cpp:388-409 | with the default cost no walk costs less than its weighted length, and a walk whose connections are long enough against the floor costs exactly that |
| PathCosts.LeastCostIsShortest | extension/sourcesdk/nav_mesh.cpp:213-222 | so a walk of least cost has the least weighted length among those walks; the answer of `FindPath` is such a one |
| PathCosts.MonotoneIffNoNegativeLength | extension/natives/nav.cpp:183-214 | with it, steps are monotone if and only if no connection has a negative length |
| PathCosts.ConsistentIffLengthsPay | extension/natives/nav.cpp:183-214 | with it, the heuristic is consistent if and only if every connection pays for its drop, up to the minimal increment |
| PathCosts.StraightLinesAreConsistent | extension/natives/nav.cpp:183-214 | straight-line heuristics qualify when no connection is shorter than the straight line and distances obey the triangle inequality |
| GridGeometry.ToGridIsMonotone | extension/toolsnav_mesh.h:419-449 | the clamped cell coordinate is monotone |
| GridGeometry.ToGridIsLipschitz | extension/toolsnav_mesh.h:419-449 | coordinates at most k cell widths apart land at most k cells apart, clamped or not |
| GridGeometry.CellsAre300Long | extension/toolsnav_mesh.h:419-449 | a cell is 300 units long; the first one takes everything before it, the last one everything after it |
| GridGeometry.ClosestPoint | extension/sourcesdk/nav_area.cpp:288-302 | the closest point of an area with ordered corners lies above or below the area |
| GridGeometry.ClosestIsClosest | extension/sourcesdk/nav_area.cpp:288-302 | no point above or below the area is closer in the plane, and its height is that of the surface there |
| GridGeometry.CornerHeights | extension/sourcesdk/nav_area.cpp:261-283 | at each of the four corners the surface has the height of that corner |
| GridGeometry.HeightIsAffine | extension/sourcesdk/nav_area.cpp:261-283 | along each of the two axes the surface is a straight line between the opposite sides |
| GridGeometry.HeightIsClamped | extension/sourcesdk/nav_area.cpp:261-283 | outside the area the height is that of the closest point; everywhere it lies between the lowest and the highest corner; an area without width or depth has the height of its north-east corner throughout |
| GridGeometry.ExtentIsLeast | extension/sourcesdk/nav_area.cpp:18-32 | the extent of an area is the least box with all four corners in it |
| GridGeometry.OverlapIsCommonPoint | extension/sourcesdk/nav.h:183-188 | boxes overlap if and only if they have a point in common, heights included |
| GridGeometry.Pythagoras | extension/toolsnav_mesh.cpp:348 | squared distances along the three axes add up |
| GridGeometry.CoversItsPoints | extension/toolsnav_mesh.cpp:92-111 | an area is registered in the cell of every point above or below it |
| GridGeometry.OverlapMeets | extension/toolsnav_mesh.h:77-80 | the cells that a rectangle spans meet the cells of every area that it overlaps |
| GridOrder.ColumnsExact | extension/toolsnav_mesh.h:82-113 | the nested cell loops meet each kept cell of their rectangle exactly once |
| GridOrder.RingsExact | extension/toolsnav_mesh.cpp:306-323 | the rings up to n hold exactly the cells of the grid closer than n in Chebyshev distance, each once |
| GridOrder.PickedExact | extension/toolsnav_mesh.h:94-112 | a marking scan hands on each wanted area once, and no other |
| GridOrder.ListingExact | extension/toolsnav_mesh.cpp:92-111 | listing a set of cells gives exactly the areas registered in one of them |
| GridOrder.ExtentQueryIsFullScan | extension/toolsnav_mesh.h:60-117 | the rectangle query picks exactly what a scan over all areas would if the rectangle spans cells of the grid, and nothing otherwise |
| GridOrder.OrderedExtentSpansCells | extension/toolsnav_mesh.h:77-80 | a rectangle with ordered corners is never inverted through the grid |
| GridOrder.RadiusQueryIsFullScan | extension/toolsnav_mesh.h:119-178 | for radius 0 or more the radius query picks exactly what a scan over all centres would |
| GridOrder.NegativeRadius | extension/toolsnav_mesh.h:119-178 | a negative radius is squared: at most -300 visits nothing, otherwise only one cell is searched |
| GridOrder.HighestIsFirstHighest | extension/toolsnav_mesh.cpp:113-159 | the point scan answers the first of the highest surfaces within the limits |
| GridOrder.PointQueryIsFullScan | extension/toolsnav_mesh.cpp:113-159 | one cell gives the answer of a scan over all areas, ties by order of insertion included |
| GridOrder.NullMeansNoneInReach | extension/toolsnav_mesh.cpp:297-407 | a ring search without an answer means that no unblocked area of the mesh is within `maxDist` |
| GridOrder.CloseAnswerIsGlobal | extension/toolsnav_mesh.cpp:297-407 | an answer no further away than the rings searched is nearest in the whole mesh |
| GridOrder.WithinOneCellIsNearest | extension/toolsnav_mesh.cpp:297-407 | for `maxDist` from 0 to 300 every answer is nearest in the whole mesh |
| GridOrder.TwoAreas | extension/toolsnav_mesh.cpp:297-407 | for every larger `maxDist`, a mesh of two areas in which the only answer of the ring search is not the nearest area |
| GridOrder.NearestIffWithinOneCell | extension/toolsnav_mesh.cpp:297-407 | over all meshes and positions, every answer is nearest in the whole mesh if and only if `maxDist` is at most the length of a cell |
| GridMesh.PastTheGridIff | extension/toolsnav_mesh.h:86-91 | in a column of the grid, the place of a cell is past the grid if and only if its row is |
| GridMesh.ToolsNavMesh.VisitRectangle | extension/toolsnav_mesh.h:82-116 | the loops of the rectangle query with their early return, which is taken only in a row that the grid does not have |
| GridMesh.ToolsNavMesh.Load | extension/toolsnav_mesh.cpp:20-69 | the grid holds every area in exactly the cells its box covers, in order; no area needs clamping |
| GridMesh.ToolsNavMesh.Bounds | extension/toolsnav_mesh.cpp:29-59 | the bounds enclose all areas and are the least that do, as far as the sentinels allow |
| GridMesh.ToolsNavMesh.AllocateGrid | extension/toolsnav_mesh.cpp:81-90 | an empty grid of the computed size |
| GridMesh.ToolsNavMesh.AddNavArea | extension/toolsnav_mesh.cpp:92-111 | the area goes to the end of exactly the cells that its box covers |
| GridMesh.ToolsNavMesh.ForAllAreasOverlappingExtent | extension/toolsnav_mesh.h:60-117 | it never walks off the grid; the functor is called in scan order until it returns false; if it never does, exactly once on each area that a full scan selects |
| GridMesh.ToolsNavMesh.ForAllAreasInRadius | extension/toolsnav_mesh.h:119-178 | the same for the centres within a radius |
| GridMesh.ToolsNavMesh.GetNavArea | extension/toolsnav_mesh.cpp:113-159 | equals the full scan, null for an empty mesh: the answer has the highest surface of all areas over or under the position whose surface is at most 5 units above it and not too far below; null exactly if there is none |
| GridMesh.ToolsNavMesh.SearchRings | extension/toolsnav_mesh.cpp:280-407 | with the limit rewritten on every improvement: why each ring is searched; the answer is the first nearest unblocked area of all cells within the final limit, which is one ring past the ring that gave it |
| GridMesh.ToolsNavMesh.GetNearestNavArea | extension/toolsnav_mesh.cpp:240-408 | the quick check, the ground check, then the ring search; null is right for the whole mesh, an answer within the rings searched too |
| Layers.RankedIsShort | extension/sourcesdk/baseanimatingoverlay.cpp:498-565 | never more active layers than slots; a free slot means fewer |
| Layers.NewOrderSplits | extension/sourcesdk/baseanimatingoverlay.cpp:468-478 | one more than the highest order of at most that priority is the one place behind its equals |
| Layers.ClosingSpellsWithout | extension/sourcesdk/baseanimatingoverlay.cpp:376-382 | the shift loop that closes a gap deletes the layer from the sequence and keeps the order of the others |
| Layers.OpeningSpellsInsert | extension/sourcesdk/baseanimatingoverlay.cpp:551-562 | the shift loop that opens a gap inserts the layer into the sequence |
| Layers.ShiftSpells | extension/sourcesdk/baseanimatingoverlay.cpp:457-489 | both loops together move one layer behind all others of at most its new priority |
| Layers.AnimatingOverlay.AllocateLayer | extension/sourcesdk/baseanimatingoverlay.cpp:498-565 | fails exactly when all 15 slots are in use or dying; otherwise takes the first free slot, or a new one if none is free, inserts after equals, keeps the others, and leaves a spare slot unless all 15 exist; exactly how many slots are added |
| Layers.AnimatingOverlay.FindSlot | extension/sourcesdk/baseanimatingoverlay.cpp:502-549 | the first free slot is taken, or a new one behind all others; one more slot is added if no other is free, two if none was, as far as 15 allow; and the new order |
| Layers.AnimatingOverlay.FastRemoveLayer | extension/sourcesdk/baseanimatingoverlay.cpp:370-384 | deletes one layer, keeping the relative order of all others; no effect on an invalid index |
| Layers.AnimatingOverlay.SetLayerPriority | extension/sourcesdk/baseanimatingoverlay.cpp:442-496 | moves one layer behind its new equals, keeping the relative order of all others; no effect for the same priority |
| Layers.AnimatingOverlay.AddLayeredSequence | extension/sourcesdk/baseanimatingoverlay.cpp:567-588 | an allocated layer that plays the sequence |
| Layers.AnimatingOverlay.AddGestureSequence | extension/sourcesdk/baseanimatingoverlay.cpp:61-71 | an allocated layer of priority 0, autokilled or not |
| Layers.AnimatingOverlay.AddGesture | extension/sourcesdk/baseanimatingoverlay.cpp:85-106 | afterwards exactly the returned layer plays the activity live; reuse, failure and allocation exactly as coded |
| Layers.AnimatingOverlay.FindGestureLayer | extension/sourcesdk/baseanimatingoverlay.cpp:420-440 | the one layer that plays the activity live, or -1 exactly if there is none |
| Layers.AnimatingOverlay.RemoveLayer | extension/sourcesdk/baseanimatingoverlay.cpp:350-368 | marks the layer and keeps its place |
| Layers.AnimatingOverlay.RemoveGesture | extension/sourcesdk/baseanimatingoverlay.cpp:164-171 | afterwards the activity is not playing |
| Layers.AnimatingOverlay.RemoveAllGestures | extension/sourcesdk/baseanimatingoverlay.cpp:173-180 | marks every active layer, and no other |
| Layers.AnimatingOverlay.SetDying | extension/sourcesdk/baseanimatingoverlay.h:72-74 | a slot that is not in use may die and come back without touching the sequence |
| FactoryAncestry.NoCycle | extension/pluginentityfactory.cpp:763-797 | ranks that fall along the bases rule out cycles |
| FactoryAncestry.DescendsFromChild | extension/pluginentityfactory.cpp:799-833 | every proper descendant descends from a child |
| FactoryAncestry.RestrictKeeps | extension/pluginentityfactory.cpp:799-833 | taking out a set closed under deriving changes no other chain of bases |
| FactoryForest.BelowRest | extension/pluginentityfactory.cpp:799-833 | uninstalling below one child, when others have gone already, leaves exactly what is below neither |
| FactoryForest.ChildrenCover | extension/pluginentityfactory.cpp:799-833 | once the subtrees of all children are gone, exactly the factory itself is left of its subtree |
| FactoryForest.RemoveFirstExact | extension/pluginentityfactory.cpp:884-909 | unlinking removes one derived factory and keeps the rest |
| FactoryForest.PluginEntityFactories.Acyclic | extension/pluginentityfactory.cpp:763-797 | in every reachable state the installed factories form a forest |
| FactoryForest.PluginEntityFactories.FoundBaseIsInstalled | extension/pluginentityfactory.cpp:847-873 | a base found for a factory that is not installed is another factory, and is installed |
| FactoryForest.PluginEntityFactories.BaseIsFound | extension/pluginentityfactory.cpp:847-882 | the base that is found is the only one that fits what the factory derives from, told by the installed factories; when a base is lacking or a name taken |
| FactoryForest.PluginEntityFactories.Install | extension/pluginentityfactory.cpp:763-797 | succeeds exactly when installed already or what it derives from is there and its name is free, and links it to that base both ways: of a name, the other installed factory that goes by it and the one of the game only if there is none; of a handle, its factory if installed; no effect on failure |
| FactoryForest.PluginEntityFactories.Uninstall | extension/pluginentityfactory.cpp:799-833 | halts, and uninstalls exactly the factory and its descendants, with exactly their names, although the derived list shrinks under the loop |
| FactoryForest.PluginEntityFactories.SetBaseFactory | extension/pluginentityfactory.cpp:884-909 | the factory leaves the list of its old base and goes to the end of that of its new one; every other list stays |
| FactoryForest.PluginEntityFactories.RemovePluginFactory | extension/pluginentityfactory.cpp:289-303 | exactly the names of the factory go |
| FactoryForest.PluginEntityFactories.Topmost | extension/pluginentityfactory.cpp:463-475 | the climb ends at a base of the same plugin above the factory |
| FactoryForest.PluginEntityFactories.FactoriesToUninstall | extension/pluginentityfactory.cpp:450-481 | the list covers every installed factory of the plugin |
| FactoryForest.PluginEntityFactories.OnPluginUnloaded | extension/pluginentityfactory.cpp:442-487 | afterwards exactly the factories of the plugin and what derives from them are uninstalled |
| FactoryForest.PluginEntityFactories.OnHandleDestroy | extension/pluginentityfactory.cpp:489-496 | the factory is uninstalled with its subtree, and forgotten |
| FactoryForest.PluginEntityFactories.OnFactoryCreated | extension/pluginentityfactory.cpp:376-379 | a new factory joins uninstalled |
| FactoryForest.PluginEntityFactories.Redefine | extension/natives/entityfactory.cpp:100-197 | redefining a factory that is not installed touches no installed one |
| FactoryCallbacks.FindsSameBase | extension/pluginentityfactory.cpp:763-873 | the model on values installs a factory on the same base as the one on objects, and in the same cases |
| FactoryCallbacks.RunKeepsLinks | extension/pluginentityfactory.cpp:763-843 | in every run, whatever plugin code does in the middle of uninstalls, base and derived links stay inverse to each other |
| FactoryCallbacks.CloseLeaves | extension/pluginentityfactory.cpp:811-830 | a factory that closes leaves exactly what it still lists without a base |
| FactoryCallbacks.InstallLeaves | extension/pluginentityfactory.cpp:763-797 | installing gives a base back to what the factory still lists, and has none itself only if the one it found had gone |
| FactoryCallbacks.SoundIsSafe | extension/pluginentityfactory.cpp:799-833 | in a sound state no loop overruns, no factory dangles and the bases have no circle |
| FactoryCallbacks.EventKeepsSound | extension/pluginentityfactory.cpp:763-833 | installs, careful uninstalls and turns of the extension keep a state sound unless something is left behind; what an install on a base in progress adds to that base is what its loop will not meet |
| FactoryCallbacks.QuietRunIsSound | extension/pluginentityfactory.cpp:799-833 | as long as plugin code installs on no base that is in progress, every state of the run is sound and nothing is left behind |
| FactoryCallbacks.NoneLeftIff | extension/pluginentityfactory.cpp:799-833 | in a run of careful uninstalls that come to their end, nothing is left behind if and only if plugin code never installs a factory on a base that is in progress |
| FactoryCallbacks.SiblingOverruns | extension/pluginentityfactory.cpp:811-822 | from every such state: listeners that uninstall a childless sibling of what has just gone send the loop past the end of its list |
| FactoryCallbacks.ChildIsLeft | extension/pluginentityfactory.cpp:826-867 | a plugin that installs the child again when it is notified leaves it installed on a base that is not |
| FactoryCallbacks.CircleOfBases | extension/pluginentityfactory.cpp:835-850 | installing the base again can then close a circle of bases |
| ClientEntities.InsertKeepsInv | extension/client/cliententitymanager.cpp:283-306 | tracking keeps entities, tokens and order in bijection, under a token never issued before |
| ClientEntities.NewRefResolves | extension/client/cliententitymanager.cpp:283-306 | a new life goes by its entity index if it has one, else by its token, and that reference resolves to it while the client list knows the entity under this handle |
| ClientEntities.AcquiredIsUnused | extension/sourcesdk/cbasenpcclientclass.h:32-47 | an acquired block is held by no record and referenced by no slot |
| ClientEntities.AttachKeepsInv | extension/client/cliententitymanager.cpp:994-1003 | attaching keeps every block with at most one holder |
| ClientEntities.ReleaseKeepsInv | extension/client/cliententitymanager.cpp:1033-1040 | releasing leaves no slot that references a free block |
| ClientEntities.EraseKeepsInv | extension/client/cliententitymanager.cpp:448-450 | erasing a record keeps the bijection and the pool |
| ClientEntities.ClearKeepsInv | extension/client/cliententitymanager.cpp:1083-1085 | so does clearing everything |
| ClientEntities.AttachLosesNothing | extension/client/cliententitymanager.cpp:994-1003 | attaching loses no block and makes no slot stale |
| ClientEntities.ReleaseLosesNothing | extension/client/cliententitymanager.cpp:1033-1040 | neither does releasing |
| ClientEntities.EraseLosesBlock | extension/client/cliententitymanager.cpp:448-450 | erasing a record loses its block if and only if it still holds one, and no other block |
| ClientEntities.ClearLosesHeld | extension/client/cliententitymanager.cpp:1083-1085 | clearing everything loses exactly the blocks that records still hold |
| ClientEntities.DurableRefMeansItsLife | extension/client/cliententitymanager.cpp:460-497 | a durable reference resolves only to the entity, under the handle, that it was issued for |
| ClientEntities.ResolvesIff | extension/client/cliententitymanager.cpp:460-497 | a reference resolves to an entity if and only if the entity is tracked and goes by it: by the index at which the client list has it under its handle, else by its token |
| ClientEntities.DurableRefNeverRevives | extension/client/cliententitymanager.cpp:460-497 | however the manager goes on, a reference that resolves later has been live all along |
| ClientEntities.FastLookupAgreesIff | extension/client/cliententitymanager.cpp:940-969 | when the fast slot answers for a tracked entity under its handle, it agrees with the map if and only if it is the slot stored in the record |
| ClientEntities.FastLookupAgrees | extension/client/cliententitymanager.cpp:940-969 | so it always agrees while no slot is stale, or no entity is tracked twice under one handle |
| ClientEntities.FastLookupAnswers | extension/client/cliententitymanager.cpp:940-969 | as long as the slot of an entity is the one that was filled in its life, the fast slot answers exactly like the map |
| ClientEntities.FastAddressIsOwn | extension/client/cliententitymanager.cpp:949-969 | the fast slot answers nobody but the entity and the handle that it was filled for, and only within the block |
| ClientEntities.AddressIff | extension/client/cliententitymanager.cpp:940-947 | the map hands out an address if and only if the entity has a block and the value lies in it |
| ClientRuns.RanKeepsInv | extension/client/cliententitymanager.cpp:283-1087 | whatever callbacks do, nested arbitrarily, every invariant holds and the history only grows |
| ClientRuns.ConstructedOnce | extension/client/cliententitymanager.cpp:1014-1021 | the post constructor runs at most once in a life: whatever happens afterwards, it does not run for that life again |
| ClientLosses.OrderlyRunLosesNothing | extension/client/cliententitymanager.cpp:414-452 | as long as remove callbacks delete nothing and no callback purges or shuts down, no run loses a block or leaves a stale slot |
| ClientLosses.OrderlyLookupsAgree | extension/client/cliententitymanager.cpp:940-969 | so in such a run the fast slot never answers differently from the map |
| ClientLosses.CleanedUpConserves | extension/client/cliententitymanager.cpp:1022-1041 | a cleanup gives the block back, whatever a remove callback without deletions does |
| ClientLosses.DeletedConserves | extension/client/cliententitymanager.cpp:414-452 | a deletion with such callbacks loses nothing when no record is on its way out with its block |
| ClientLosses.PurgedIsSound | extension/client/cliententitymanager.cpp:1076-1087 | so does a purge |
| ClientLosses.DeletionLoses | extension/client/cliententitymanager.cpp:414-452 | a deletion without callbacks returns the block if and only if the record has not been through its cleanup; otherwise it loses that block, and in no case another one |
| ClientLosses.ReentrantDeletionLoses | extension/client/cliententitymanager.cpp:1022-1041 | from any state, a remove callback that deletes the entity being cleaned up loses its block, unless the entity is being deleted already |
| ClientLosses.PurgeLoses | extension/client/cliententitymanager.cpp:1076-1087 | from any state, a purge without callbacks loses exactly the blocks of records that are on their way out and still hold them |
| ClientLosses.ReentrantPurgeLoses | extension/client/cliententitymanager.cpp:1022-1041 | a remove callback that purges loses the same blocks, and that of the entity being cleaned up |
| ClientLosses.StaleSlotAnswers | extension/client/cliententitymanager.cpp:940-969 | a run of the manager, with a remove callback that deletes the entity and tracks it again under the same handle and index, after which the fast slot answers with a lost block and the map does not |
| ClientLosses.AnyCleanupLoses | extension/client/cliententitymanager.cpp:1022-1041 | a cleanup loses exactly what its remove callback loses, whatever that does |
| ClientLosses.AnyDeletionLoses | extension/client/cliententitymanager.cpp:414-452 | for every state and all callbacks: a deletion loses what its callbacks lose, and the block that the record holds in the end if the entity is then tracked under the handle it began with |
| ClientLosses.AnyPurgeLoses | extension/client/cliententitymanager.cpp:1076-1087 | a purge loses what its deletions lose and every block still held after them, and leaves no stale slot |
| ClientLosses.PurgingListenersLose | extension/client/cliententitymanager.cpp:444-451 | from every state: listeners that purge the manager and track the entity again under its handle make the deletion erase the new record with its block, and its slot is left behind |
| ClientLosses.PurgingListenersRunLoses | extension/client/cliententitymanager.cpp:444-451 | a shortest run that loses a block this way, without any remove callback |
| ClientManager.ClientEntityManager.Run | extension/client/cliententitymanager.cpp:414-452 | the manager with its callbacks computes `ClientRuns.Ran`, every invariant holds and the history only grows |
| ClientManager.ClientEntityManager.TrackEntity | extension/client/cliententitymanager.cpp:283-336 | a life begins under the next token, exactly under the guards of the code |
| ClientManager.ClientEntityManager.AttachRuntime | extension/client/cliententitymanager.cpp:983-1013 | attaches exactly under the guards of the code; a second attach changes nothing |
| ClientManager.ClientEntityManager.AttachTracked | extension/client/cliententitymanager.cpp:988-1013 | the same for a tracked entity |
| ClientManager.ClientEntityManager.AcquireSidecar | extension/sourcesdk/cbasenpcclientclass.h:32-47 | the last free block, or a fresh one |
| ClientManager.ClientEntityManager.ReleaseSidecar | extension/sourcesdk/cbasenpcclientclass.h:48-51 | a block goes to the end of the free list |
| ClientManager.ClientEntityManager.ClearNetworkSlot | extension/client/cliententitymanager.cpp:868-875 | empties the slot only if it still refers to this entity under this handle |
| ClientManager.ClientEntityManager.RunPostConstructor | extension/client/cliententitymanager.cpp:1014-1021 | at most once per record |
| ClientManager.ClientEntityManager.CleanupRuntime | extension/client/cliententitymanager.cpp:1022-1041 | once per record; afterwards the record is gone, replaced, or holds no block, also if the callback re-enters |
| ClientManager.ClientEntityManager.OnEntityDeleted | extension/client/cliententitymanager.cpp:414-452 | computes `ClientRuns.Deleted`; whatever the callbacks do, the life that was deleted is over |
| ClientManager.ClientEntityManager.PurgeEntities | extension/client/cliententitymanager.cpp:1076-1087 | computes `ClientRuns.Purged`: nothing stays tracked; re-entrance does nothing |
| ClientManager.ClientEntityManager.ShutDown | extension/client/cliententitymanager.cpp:896-930 | nothing stays tracked and nothing is tracked again; token counter and pools survive |
| ByteLayout.AlignUpIsNext | extension/sourcesdk/cbasenpcrecvtable.cpp:86 | the rounding expression gives the least aligned offset at or after the given one |
| ByteLayout.ArrayLaidOut | extension/sourcesdk/cbasenpcrecvtable.cpp:101-109 | an array of elements is laid out without overlap, each aligned |
| ByteLayout.AreApart | extension/sourcesdk/cbasenpcrecvtable.cpp:86-116 | two elements of a layout share no byte |
| Sidecar.ChainLaidOut | extension/sourcesdk/cbasenpcrecvtable.cpp:68-119 | for any chain of classes built by `BuildField` all elements are aligned, disjoint, behind the inherited prefix and within 16 MiB |
| Sidecar.FieldAdded | extension/sourcesdk/cbasenpcrecvtable.cpp:86-116 | a field at the next aligned offset keeps the layout |
| Sidecar.RecvTable.BuildField | extension/sourcesdk/cbasenpcrecvtable.cpp:68-119 | fails, with no effect, exactly on a bad descriptor (no text length from 1 to 512, a reserved or empty name, not 1 to 2048 elements), a full table or a sidecar that would outgrow 16 MiB; otherwise offset, size and handle ranges as coded |
| Sidecar.KindSizes | extension/sourcesdk/cbasenpcrecvtable.cpp:75-85 | sizes and alignments in numbers: vectors are two or three floats, flags and characters single bytes, text as long as it says |
| Sidecar.RangesAreHandles | extension/sourcesdk/cbasenpcclientclass.cpp:219-248 | the inherited and local handle ranges touch exactly the bytes of the handles of the chain |
| Sidecar.InitializeSidecar | extension/sourcesdk/cbasenpcclientclass.h:52-62 | zero everywhere but in the ranges that are taken |
| Sidecar.InitializeStorage | extension/sourcesdk/cbasenpcrecvtable.cpp:121-131 | the recursive walk terminates exactly the handles of the chain |
| Sidecar.InitializeBothWays | extension/sourcesdk/cbasenpcclientclass.h:52-62 | zeroing plus the recursive walk, and the range-based form, give the same bytes |
| Sidecar.ElementsSized | extension/sourcesdk/cbasenpcrecvtable.cpp:75-92 | every element of a chain built by `BuildField` has the size of its kind |
| SidecarReceive.Receive | extension/sourcesdk/cbasenpcrecvtable.cpp:133-171 | after an update the element means the value: a flag is 1 exactly if the number is not 0, integers read back as the number wrapped to their width, floats and vectors are the bytes of the value, text is cut to what fits, handles are split anew; the bytes of every other element of the chain are left alone |
| SidecarReceive.EncodeHolds | extension/sourcesdk/cbasenpcrecvtable.cpp:145-170 | what is written means the value, for every kind |
| SidecarReceive.HandleHolds | extension/sourcesdk/cbasenpcrecvtable.cpp:161-169 | the word in memory splits back into entry and serial number of the handle on the wire; all ones stand for the invalid handle, and for no other where memory has more bits for the entry than the wire |
| SidecarReceive.EncodeFits | extension/sourcesdk/cbasenpcrecvtable.cpp:145-170 | every encoding fits its element, and fills it unless it is text |
| SidecarReceive.CopyText | extension/sourcesdk/cbasenpcrecvtable.cpp:152-156 | text up to its terminator, cut to leave room for one |
| SidecarReceive.TextReadsBack | extension/sourcesdk/cbasenpcrecvtable.cpp:152-156 | text comes back cut to what fits |
| MachineWords.IntegersReadBack | extension/sourcesdk/cbasenpcrecvtable.cpp:146-169 | low bytes come back as the value wrapped to its width |
| MachineWords.LowestFirst | extension/sourcesdk/cbasenpcrecvtable.cpp:145-170 | the lowest byte of a word comes first |
| Datamaps.DataMapContainer.DefineField | extension/idatamapcontainer.cpp:195-220 | one more descriptor at the next aligned offset; the layout is kept |
| Datamaps.FieldSizes | extension/idatamapcontainer.cpp:103-175 | sizes and alignments in numbers: types made of floats are laid out as an array of them, and anything else is aligned to its size |
| Datamaps.DataMapContainer.DefineOutput | extension/idatamapcontainer.cpp:971-996 | the same for an output, which takes room but declares none |
| Datamaps.DataMapContainer.EndDataDesc | extension/idatamapcontainer.cpp:177-188 | the size is rounded up to a pointer; an empty table gets one field |
| Datamaps.ChainLaidOut | extension/pluginentityfactory.cpp:911-928 | when every level begins where its base ends, all fields of the chain are aligned, disjoint and inside the entity |
| Datamaps.EntityEndsWithData | extension/pluginentityfactory.cpp:911-928 | then the entity ends where the last data end that any level has described |
| Datamaps.BlocksFitIff | extension/pluginentityfactory.cpp:911-928 | every level of a chain has its data behind its base and inside its own entity if and only if every level begins where its base ends |
| Datamaps.StartDecides | extension/pluginentityfactory.cpp:1115-1135 | a level that begins too early begins inside its base, and one that begins too late sticks out of its entity |
| Datamaps.StaleStartOverlaps | extension/pluginentityfactory.cpp:1115-1135 | a concrete chain in which a base was redefined after the derived data had begun: two fields share their bytes |
| Datamaps.StaleStartSticksOut | extension/pluginentityfactory.cpp:1115-1135 | a concrete chain in which the base was redefined with less: a field lies past the end of the entity |
| Datamaps.DataOffsetIsElement | extension/idatamapcontainer.cpp:260-274 | descriptor and index designate the element that the layout put there |
| Datamaps.LoadedStored | extension/idatamapcontainer.cpp:276-342 | what is stored reads back truncated to the type |
| Datamaps.SetObjectData | extension/idatamapcontainer.cpp:310-342 | writes exactly the bytes of the element; fails, with no effect, exactly out of range or for a type that is no integer |
| Datamaps.GetObjectData | extension/idatamapcontainer.cpp:276-308 | reads exactly those bytes, under the same conditions |
| Datamaps.SetThenGet | extension/idatamapcontainer.cpp:276-342 | set then get gives the truncated value, 0 or 1 for a flag, and every other element of the whole chain keeps its bytes |
| MetadataLookup.FindRecursive | extension/shared/datamaplookup.h:11-36 | halts on every graph, cyclic ones too; the in-place path and the shared budget compute the lookup function |
| MetadataLookup.Find | extension/shared/datamaplookup.h:37-44 | no name finds nothing and leaves -1 |
| MetadataLookup.SearchHit | extension/shared/datamaplookup.h:11-36 | any hit has the requested name, and its offset is the sum along a route that leads to it |
| MetadataLookup.FollowAdds | extension/shared/datamaplookup.h:31-35 | offsets add up along a route |
| MetadataLookup.FirstMatchConcat | extension/shared/datamaplookup.h:20-35 | the budget left over by one part is what the next part gets |
| MetadataLookup.SearchIsFirstMatch | extension/sourcesdk/cbasenpcclientlookup.h:43-73 | where references lead neither in circles nor deeper than 64, the lookup is the first match of the preorder flattening within its budget |
| MetadataLookup.FoundIffReachable | extension/shared/datamaplookup.h:11-36 | nothing is missed: under the same conditions, with a budget for all fields, something is found if and only if a route over fields that count leads to a field of the name |
| ServerSchema.SchemaBuild.BuildClass | extension/sourcesdk/cbasenpcserverclass.cpp:397-457 | the memoised build halts; a class met on its own stack is a real circle of bases, and every failure names a real fault of the declarations |
| ServerSchema.SchemaBuild.BuildBase | extension/sourcesdk/cbasenpcserverclass.cpp:407-419 | the base is built before the class; the size it needs is where the last inherited field ends, and the names it hands down are those in its table; a base with fields whose factory is no allocation ancestor is refused |
| ServerSchema.SchemaBuild.LastFieldEnd | extension/sourcesdk/cbasenpcserverclass.cpp:420-446 | the checks of the datamap start, of recurring names and of the size all pass if and only if a required size is computed, and it is the greatest field end |
| ServerSchema.SchemaBuild.BuildAll | extension/sourcesdk/cbasenpcserverclass.cpp:458 | building all classes succeeds if and only if no base is missing, the bases lead to no circle, and no declaration is a misfit: allocated in a circle, with data that do not start behind the allocation base, a recurring or inherited field name, a field past the end of the entity, or inherited fields without an allocation ancestor |
| ServerSchema.LastEndStep | extension/sourcesdk/cbasenpcserverclass.cpp:430-447 | the required size of a class is the last end of any field that it has or inherits |
| ServerSchema.NamedStep | extension/sourcesdk/cbasenpcserverclass.cpp:430-437 | a property name is in the table of a class if and only if it is a field of the class, the name of the base table, or inherited |
| ServerSchema.PropsStep | extension/sourcesdk/cbasenpcserverclass.cpp:430-441 | the names collected from the base and the fields are exactly those in the table of the class |
| ServerSchema.FitsIff | extension/sourcesdk/cbasenpcserverclass.cpp:420-446 | for a class that is allocated in no circle the checks pass if and only if its declaration is no misfit |
| ServerSchema.AllocationAncestors | extension/sourcesdk/cbasenpcserverclass.cpp:403-406 | the loop ends with exactly the allocation bases of the factory, or fails if and only if they lead into a circle |
| ServerSchema.BuiltIsAcyclic | extension/sourcesdk/cbasenpcserverclass.cpp:395-457 | once everything is built, the declared bases have no circle |
| ServerSchema.BuiltHasBases | extension/sourcesdk/cbasenpcserverclass.cpp:418-419 | and none is missing |
| ServerSchema.BuiltFits | extension/sourcesdk/cbasenpcserverclass.cpp:420-446 | and no declaration is a misfit |
| ServerSchema.FinishKeepsOk | extension/sourcesdk/cbasenpcserverclass.cpp:448-456 | finishing keeps: built once, after its base, under its own name |
| SchemaManager.ServerClassManager.Collect | extension/sourcesdk/cbasenpcserverclass.cpp:357-380 | succeeds if and only if no two classes share a name, no declared table has the name of a stock or another declared one, and no installed factory has fields without a class; then exactly the declarations of the installed factories |
| SchemaManager.ServerClassManager.Prepare | extension/sourcesdk/cbasenpcserverclass.cpp:347-509 | the exact condition of success; each class built once and after its base; the combined list is the strictly sorted union; a second call repeats the failure or reports re-entrance |
| SchemaManager.ServerClassManager.Publish | extension/sourcesdk/cbasenpcserverclass.cpp:511-524 | following the pointers from the head yields exactly the combined list |
| SchemaManager.ServerClassManager.Relink | extension/sourcesdk/cbasenpcserverclass.cpp:519 | every class points to the next |
| SchemaManager.ServerClassManager.CheckWalk | extension/sourcesdk/cbasenpcserverclass.cpp:575-582 | the walk succeeds if and only if the pointers spell the list |
| SchemaManager.ServerClassManager.Commit | extension/sourcesdk/cbasenpcserverclass.cpp:526-595 | after publishing, the walk check cannot fail |
| SchemaManager.ServerClassManager.Chained | extension/sourcesdk/cbasenpcserverclass.cpp:519 | pointers to the next spell the list |
| SchemaManager.ServerClassManager.IsUnion | extension/sourcesdk/cbasenpcserverclass.cpp:483-486 | every stock class, one class for each declaration, and nothing else |
| SchemaManager.SortByName | extension/sourcesdk/cbasenpcserverclass.cpp:487 | the result is strictly sorted and holds the same classes |

## Left out

- AStar.Step: floats are modelled as real numbers, so rounding, infinities and negative zero are not; NaN from the functor is a value of its own and clamped as in the code, but a NaN initial cost is not modelled.
- AStarTheorems.ExhaustedReachesAll: one direction only for a single problem. Whether a dead end that depends on the cost so far hides a target depends on which ways into an area are kept, that is, on the whole run; the exact condition is given on the final state (`SearchRuns.ExhaustedReachesAllIff`) and over a family of meshes (`SearchRuns.CompleteIffDownwardOpen`).
- BuildPaths.PathFinder.NavAreaBuildPath: `closestArea` is always given; `IsBlocked`, `Contains`, the functor and distances are fixed during one search; no stored marker equals the fresh one (no reuse after 2^32 searches); nothing is claimed about `maxPathLength`.
- PathCosts.DefaultCostIsLinear: the branch that asks a plugin function is the abstract functor of the search.
- GridMesh.ToolsNavMesh.GetNearestNavArea: line-of-sight traces are off, and the ground height is a parameter.
- GridMesh.ToolsNavMesh.GetNavArea: the overload for an entity is not modelled; `m_hashmap` and hiding spots are not either.
- GridMesh.ToolsNavMesh.ForAllAreasInRadius: requires a grid that is not empty, where the code would index an empty vector; the marker of each query is assumed fresh, since every template instance counts on its own.
- GridGeometry.ToGridIsMonotone: cell coordinates are unbounded integers before they are clamped.
- `ForAllAreasAlongLine`, which need not halt on arbitrary connections.
- Layers.AnimatingOverlay.AllocateLayer: cycles, weights, blend times and the other fields of a layer, the raw setters (`SetDying` is for slots that are not in use), and `SetNumAnimOverlays`, which bypass the order.
- FactoryForest.PluginEntityFactories.Uninstall: forwards, and entities removed together with their factory. Plugin code that re-enters during an uninstall is modelled on values in `FactoryCallbacks`, with factories as numbers and without changes of `m_Derive`.
- FactoryForest.PluginEntityFactories.Install: names are compared as they are, without folding case.
- ClientManager.ClientEntityManager.TrackEntity: classnames, creation notices and `pendingCreates_`.
- ClientManager.ClientEntityManager.AcquireSidecar: the bytes of a block are those of `Sidecar.InitializeSidecar`; the pool deals in numbered blocks.
- NavAreas.SearchLists.AddToOpenListTail: requires a right tail pointer, since the code trusts it; a wrong one (`NavAreas.TailGoesWrong`) would link the area behind the wrong one.
- NavAreas.SearchLists.RemoveFromOpenList: an area that is not on the list but carries the marker of an earlier search, which the code would unlink again, is not modelled.
- NavAreas.SearchLists.ClearSearchLists: requires that no stored marker equals the fresh one, so the reuse of markers after 2^32 searches is not modelled.
- ClientLosses.OrderlyRunLosesNothing: sufficient for a whole run; which disorderly runs lose nothing all the same depends on what their callbacks do to which records, step by step as in `ClientLosses.AnyDeletionLoses`.
- Sidecar.InitializeSidecar: requires strides of at least a handle, which `BuildField` guarantees (`Sidecar.RangeStrides`); a shorter one would let the last handle run over.
- SidecarReceive.Receive: how the wire packs a handle depends on engine constants, which are parameters. What a handle means is stated for a memory word of 32 bits that has more bits for the entry than the wire, and else only that the invalid handle is all ones.
- GridGeometry.HeightIsAffine: for stored inverses that are those of the sides, as the mesh file is loaded; how they are rounded is not modelled.
- Sidecar.RecvTable.BuildField: `MAX_ARRAY_ELEMENTS` and send field options belong to the engine's headers; what is checked of them is a predicate on the descriptor.
- Datamaps.SetObjectData: finding the descriptor by name is `MetadataLookup.Find`, and the cache in front of it is not modelled; float, vector, string and entity accessors would repeat the integer ones.
- Datamaps.DataMapContainer.DefineOutput: the size of an output object is a parameter.
- ServerSchema.SchemaBuild.BuildClass: the remaining checks (an unfinished datamap, too many fields, an unresolved allocation base, descriptors, `BuildField` and the property count) are one flag of a declaration; the property names of a stock table are given as a set, and the allocation bases as a map.
- SchemaManager.ServerClassManager.Prepare: send tables but for their names, bit patches, property counts and `RetainCodeModule`; the engine's term and init calls are one answer; `std::sort` is an insertion sort, names stand for their place in the case-insensitive order.
- The preparation of client classes, apart from inherited handle ranges: the same depth-first build again.
- Vtable patching, detours, gamedata, generated thunks, native wrappers, NextBot behaviour and locomotion: foreign memory and engine code that is not part of this model.
