# Verified core of the Gargantuan engine

This Dafny project models the parts of the engine whose correctness rests on state, arithmetic or byte layout,
and proves what they promise over every input, every run or every interleaving.

- **Content residency.** A manifest check, reference-counted demand over the dependency graph, the per-unit residency
  machine with its byte ledgers, the decoded-byte budget that workers share without a lock, the coarse spatial index
  with its resumable pages, and the comparison with spatial metadata.
- **Wire pacing.** A saturating token bucket with permits, a bounded request queue, the 7:1 class arbiter, deadline
  lists that are checked at their heads only, and the rate set aside for control traffic.
- **Instance forest.** Reparenting, adoption with rollback, destruction and ownership counts.
- **Asset artifacts.** The binary encoder and decoder for images, fonts, materials, audio, collision shapes, static
  meshes and animations.
- **Skeletons and root motion.** Node forest, joint order, the forward pose pass, trajectories and track controls.

`dafny verify dfyconfig.toml` checks everything. Each module holds the definitions it needs; objects that the engine
updates in place are classes, and their methods are proved against functions and predicates about which the lemmas speak.

How to read a few conventions:

- A reader or decoder takes a ghost argument `e`. Its contract holds for every `e`: wherever the bytes of `e` stand,
  exactly `e` is read, or nothing if `e` is unacceptable. The argument carries no information at run time.
- Decisions the engine takes in rounded arithmetic (a degenerate triangle, a vanishing normal, quaternion length and
  normalisation, a finite transform) are function parameters, and results hold for every such function. Transforms are
  elements of an arbitrary group or of any set with an associative product.
- Floating-point numbers in artifacts are 32-bit patterns with their exact real value; elsewhere they are reals.

What turned out false of the code is stated with its exact condition:

- `Pending` is not the number of Requested units: `MakeCacheSpace` drops a Requested unit without giving its slot back.
  Settling a payload loses a slot exactly when some other Requested unit is evictable and the bytes needed still exceed
  the limit after everything evictable above it is gone (`MustGo`, `LeaksMean`, `FinishContent`). Lost slots never come
  back, so a tick ends with an exact count only if it began with one (`Step`); `TickLeaks` is a concrete tick that
  loses one.
- Parent and child do not always answer to one data model. From a forest where they do, an accepted move keeps it so
  exactly when all that moves is owned, or it answers to no data model, or the target stands below the data model
  itself; a detachment, exactly when all or none of what moves is owned (`PlacedOneOwner`). `NestingSeparates` is a
  concrete move that separates them.
- A data model does not always count what it owns. Destroying a subtree keeps exact counts exactly when, for every data
  model, nothing goes that merely stands below it unowned, or all that it owns goes too (`PrunedCounted`). `CountLostRun`
  is a run of five accepted moves and one destruction that loses a count although every data model is a root again.
  Both promises hold throughout runs in which no data model is moved below a parent (`Run`).
- A root-motion interval may run backwards: exactly when looping was turned off after the clip's end had passed
  (`AdvanceRuntime`, with the track `StepsBack`). The motion it stands for is the identity (`SteppingBackIsStill`).
- The character does not always move as its clip does: a frame's motion beyond the limits is dropped although the
  sample has moved on. The motion over a span is kept exactly when the dropped motions, each carried to where the
  character stood, come to nothing (`AppliedIsWhole`); a single drop never does (`OneDropIsLost`),
  two may (`DropsMayCancel`).
- An image whose byte size wraps in 64 bits is encoded with too small a buffer (`EnormousImage`); every image is read
  back exactly when its dimensions are within the decoder's limits (`DecodeImage`).

Branches proved unreachable: the two that skip a counter at its bound in `AdjustDependencies`, the worker's "queue byte
limit reached", the subtree-size check after each push in `SetParent`, the "could not be ordered" check of a skin, and a
missing root-motion baseline in the frame step.

## Model

| member | source | states |
|---|---|---|
| ManifestCheck.CheckManifest | src/content/ContentAvailability.cpp:347-433 | A parsed entry list is accepted exactly when its keys ascend, every entry is in bounds, every named dependency exists, and the graph that the names spell has no cycle. |
| ManifestCheck.CheckEntries | src/content/ContentAvailability.cpp:347-411 | The entry loop accepts exactly valid, strictly ascending keys and dependency lists within the per-unit and total edge limits. |
| ManifestCheck.CheckDependencyList | src/content/ContentAvailability.cpp:380-392 | A dependency list is accepted exactly when its keys are valid, strictly ascending and never the entry's own. |
| ManifestCheck.CheckKey | src/content/ContentAvailability.cpp:278-292 | The walk over a key, segment by segment, accepts exactly valid keys: allowed characters, no slash at an end, no segment that is empty or names a directory. |
| KeyOrder.LessIsDictionary | src/content/ContentAvailability.cpp:371-371 | Keys are ordered as in a dictionary, by the first character in which they differ. |
| ManifestCheck.ResolveDependencies | src/content/ContentAvailability.cpp:412-424 | Turning names into indices succeeds exactly when every name is present, and in-degrees and reverse edges agree with the resulting graph. |
| ManifestCheck.VisitAll | src/content/ContentAvailability.cpp:425-433 | The in-degree queue visits every entry exactly when the graph is acyclic; a cycle leaves entries unvisited. |
| ManifestCheck.NothingLeft | src/content/ContentAvailability.cpp:425-433 | When the queue runs dry in an acyclic graph, nothing is left waiting. |
| DependencyGraph.StuckSetHasCycle | src/content/ContentAvailability.cpp:425-433 | Entries that each wait for another of their own set contain a dependency cycle. |
| DependencyGraph.AcyclicHasRank | src/content/ContentAvailability.cpp:425-433 | Every acyclic graph has a rank that falls along each dependency. |
| ManifestPreparation.PrepareManifest | src/content/ContentAvailability.cpp:919-939 | The worker prepares exactly the accepted manifests, and what it prepares always meets the conditions that the residency engine relies on: an acyclic graph, reverse edges that mirror it, and sizes within the payload limit. |
| DependencyDemand.RaiseOne | src/content/ContentAvailability.cpp:1050-1071 | One upward worklist step moves one owed increment into the counters and owes a newly desired unit's dependencies; no counter passes 2^32 - 1. |
| DependencyDemand.LowerOne | src/content/ContentAvailability.cpp:1050-1071 | One downward step likewise, and no counter goes below zero. |
| DependencyDemand.DesiredIffWanted | src/content/ContentAvailability.cpp:1050-1095 | In an acyclic graph with exact counters, a unit is desired exactly when a chain of dependency edges leads to it from a unit with direct demand or pins. |
| DependencyDemand.DemandDetermined | src/content/ContentAvailability.cpp:1050-1095 | Exact counters are a function of direct demand and pins alone, so the order of past calls does not matter. |
| DependencyDemand.NothingAskedNothingDesired | src/content/ContentAvailability.cpp:1089-1095 | Once everything is released and unpinned, every dependency counter is back at zero. |
| ContentAvailability.ContentAvailabilityService.AdjustDependencies | src/content/ContentAvailability.cpp:1050-1071 | The worklist terminates with each counter equal to the number of desired units that list it; its two branches for a counter at its bound are unreachable. |
| ContentAvailability.ContentAvailabilityService.Request | src/content/ContentAvailability.cpp:1073-1087 | Refused only at 2^32 - 1 requests; otherwise one more direct request, demand exact again, nothing else changed. |
| ContentAvailability.ContentAvailabilityService.Release | src/content/ContentAvailability.cpp:1089-1095 | Refused only at zero; otherwise one fewer, demand exact again. |
| ContentAvailability.ContentAvailabilityService.PinContent | src/content/ContentAvailability.cpp:1522-1534 | As Request, for pins. |
| ContentAvailability.ContentAvailabilityService.UnpinContent | src/content/ContentAvailability.cpp:1536-1544 | As Release, for pins. |
| ContentAvailability.ContentAvailabilityService.SubmitContent | src/content/ContentAvailability.cpp:946-1006 | Moves a Requested unit to Acquiring with one job, one slot in flight and its bytes reserved; all invariants hold. |
| ContentAvailability.ContentAvailabilityService.SubmitCachedContent | src/content/ContentAvailability.cpp:1008-1048 | The same from cached bytes, giving a pending slot back only if the unit held one. |
| ContentAvailability.ContentAvailabilityService.StartRequests | src/content/ContentAvailability.cpp:1097-1136 | What every unit becomes, one by one: an undesired unit loses its document or its place in the queue or is told to stop; a desired Unavailable one is queued exactly while pending slots are left at its turn, and a queued one starts exactly when a worker slot and room for its bytes are left then. Slots and bytes taken are exact sums. |
| ContentAvailability.ContentAvailabilityService.MakeCacheSpace | src/content/ContentAvailability.cpp:1138-1155 | Evicts exactly the evictable units for which everything evictable above them is not enough, and loses one pending slot for each Requested one among them. |
| ContentAvailability.ContentAvailabilityService.TakeCompletions | src/content/ContentAvailability.cpp:1221-1234 | Takes the oldest reports, as many as one tick may take, and their payload bytes leave the queue. |
| ContentAvailability.ContentAvailabilityService.FinishManifest | src/content/ContentAvailability.cpp:1245-1264 | Publishes the manifest with fresh records, and exactly the bootstrap units (all of them when fully resident) are asked for once; nothing is lost. |
| ContentAvailability.ContentAvailabilityService.FinishContent | src/content/ContentAvailability.cpp:1235-1320 | Gives back the slot and the reserved bytes once, and says exactly what the unit becomes: Unavailable when unwanted or cancelled, Failed when rejected or when its payload does not fit once everything that must go is gone, otherwise Available with its document kept exactly when all dependencies are Resident; the pending slots lost are those computed from the state before the call. |
| ContentAvailability.ContentAvailabilityService.StorePayload | src/content/ContentAvailability.cpp:1294-1319 | Caches the payload and publishes the unit exactly when it fits once everything that must go is gone, keeping a document that came with its dependencies in place; otherwise the unit fails. |
| ContentAvailability.ContentAvailabilityService.AdmitUnit | src/content/ContentAvailability.cpp:1339-1438 | One turn: Resident exactly when desired, decoded, within budget, with all dependencies Resident and a committed hand-over; failed and emptied exactly when the hand-over is refused; decoded again exactly when there is a slot and room; otherwise nothing. |
| ContentAvailability.ContentAvailabilityService.EvictUnit | src/content/ContentAvailability.cpp:1442-1473 | One turn: an undesired Resident unit on which nothing Resident stands and which fits the budget leaves exactly when its root is lost or no child of the running world holds it; otherwise nothing changes. |
| ContentAvailability.ContentAvailabilityService.RetryContent | src/content/ContentAvailability.cpp:1546-1556 | Works exactly on Failed units: such a unit counts as Unavailable and a request pass follows; otherwise nothing changes. |
| ContentAvailability.ContentAvailabilityService.WorkerFinishesContent | src/content/ContentAvailability.cpp:992-1006 | A report always fits the completion queue's byte limit, so the worker's limit branch is unreachable. |
| ContentAvailability.ContentAvailabilityService.Step | src/content/ContentAvailability.cpp:1216-1475 | A whole tick, phase by phase: the oldest reports are settled one after another, units are asked for, admitted in record order, evicted in reverse order and asked for again, and for every unit each phase says exactly what it becomes, from the state before the phase, the budgets left at its turn and the world. Every invariant is kept, no desired Resident unit leaves, and pending is exact afterwards only if it was before and settling the first report loses nothing - for a tick of one report exactly then. |
| TickOutcome.TickAdmits | src/content/ContentAvailability.cpp:1339-1438 | From the states before and after a tick alone: a desired unit with its document ready becomes Resident exactly when the world takes it, its dependencies are in at its turn, and the units, objects and bytes of the tick are not used up by the units before it. |
| TickOutcome.TickEvicts | src/content/ContentAvailability.cpp:1442-1473 | Likewise: an undesired Resident unit becomes Unavailable exactly when its root is lost or no child of the running world holds it, nothing Resident stands on it at its turn, and the budgets are not used up by the units after it; else it stays Resident. |
| TickPasses.AdmittingEnds | src/content/ContentAvailability.cpp:1339-1341 | The admission pass may stop once the units are used up: whatever it has not reached would have stayed as it is. |
| TickPasses.EvictingEnds | src/content/ContentAvailability.cpp:1442-1442 | The same for eviction. |
| ContentAvailability.ContentAvailabilityService.Run | src/content/ContentAvailability.cpp:1216-1556 | Every sequence of calls, worker reports and ticks goes step by step as the events say, every state on the way meets every invariant, and lost pending slots never come back. |
| ContentAvailability.EveryStateIsSound | src/content/ContentAvailability.cpp:1097-1168 | Read off the invariant in any state: slots in flight are the Acquiring units plus the manifest, one outstanding job or report for exactly those units, cached, queued and reserved bytes are exact sums within their limits, Resident units stand on Resident dependencies, and desire is reachability. |
| CacheSpace.LeaksMean | src/content/ContentAvailability.cpp:1138-1155 | A pending slot is lost exactly when some Requested unit other than the preserved one is evictable while the bytes needed exceed the limit even without everything evictable above it. |
| CacheSpace.ClearStop | src/content/ContentAvailability.cpp:1152-1153 | As soon as the bytes fit, the units further down stay and lose nothing. |
| ContentAvailability.PendingLeaks | src/content/ContentAvailability.cpp:1150-1150 | A concrete state that meets every invariant, with an exact count and one waiting payload whose settling loses a slot. |
| ContentAvailability.TickLeaks | src/content/ContentAvailability.cpp:1216-1475 | One tick from that state, whatever the outside answers, ends with pending different from the number of Requested units. |
| ResidencyState.QueuedWithinReserved | src/content/ContentAvailability.cpp:946-1048 | Queued payload bytes never exceed reserved bytes, which never exceed the limit. |
| ResidencyState.RecordMoveKeeps | src/content/ContentAvailability.cpp:1339-1473 | Changing one record that holds no job keeps every invariant when its cached bytes and pending slot are accounted for and the Resident set stays closed. |
| ResidencyState.LaunchKeeps | src/content/ContentAvailability.cpp:946-1048 | Launching a unit keeps every invariant. |
| ResidencyState.FinishKeeps | src/content/ContentAvailability.cpp:1235-1244 | Settling one report keeps every invariant. |
| DecodedBudget.StepBalanced | src/content/ContentAvailability.cpp:848-892 | Every atomic action of any worker, spurious compare-and-swap failures included, keeps the counter equal to live documents plus unwrapped claims, within the limit. |
| DecodedBudget.EveryInterleavingFits | src/content/ContentAvailability.cpp:751-892 | After every interleaving the counter is that exact sum, within the limit, and neither `Limit - Current` nor a give-back can wrap. |
| DecodedBudget.ViewDecides | src/content/ContentAvailability.cpp:864-891 | A worker whose view of the counter is current claims exactly what fits and gives up exactly what does not; with a stale view it can only look again. |
| DecodedBudget.HighWaterIsPeak | src/content/ContentAvailability.cpp:871-873 | The high-water mark never exceeds the true peak, and equals it once no worker is between claim and mark. |
| CoarseCells.Measure | src/content/ContentAvailability.cpp:561-576 | Measures a volume axis by axis with the quotient guard instead of a product; the verdict is the axis-by-axis one. |
| CoarseCells.JudgeFits | src/content/ContentAvailability.cpp:470-487 | That verdict is favourable exactly when the whole box is addressable and has at most 4096 cells. |
| CoarseCells.TouchingBoxesOverlap | src/content/ContentAvailability.cpp:470-487 | Volumes that share a point have overlapping cell boxes. |
| CoarseCells.CellHolds | src/content/ContentAvailability.cpp:470-487 | A coordinate lies in a cell exactly when the cell holds it: from its lower edge up to, not including, the next. |
| CoarseCells.SpanHolds | src/content/ContentAvailability.cpp:470-487 | On every axis a volume has exactly the cells that hold one of its coordinates. |
| CoarseCells.TouchingSharePoint | src/content/ContentAvailability.cpp:470-487 | Valid volumes touch exactly when they share a point. |
| CoarseCells.OverlapIsSharedCell | src/content/ContentAvailability.cpp:490-502 | Boxes overlap exactly when a cell lies in both. |
| CoarseCells.CellIsVisited | src/content/ContentAvailability.cpp:587-598 | Every cell of the box has a linear position that decodes to it. |
| CoarseCells.VisitIsInBox | src/content/ContentAvailability.cpp:587-598 | Every linear position decodes to a cell of the box, and back: the numbering is a bijection. |
| CoarseIndex.StampBox | src/content/ContentAvailability.cpp:490-501 | Adds an entry to exactly the cells of its box, or exhibits more occupied cells than the limit. |
| CoarseIndex.Build | src/content/ContentAvailability.cpp:452-504 | Succeeds exactly on lists within all limits, and then each cell lists exactly the covering entries in ascending order; every refusal names its condition. |
| CoarseIndex.FoundIsOverlap | src/content/ContentAvailability.cpp:490-501 | The cells of a box list exactly the entries whose own boxes overlap it. |
| CoarseQuery.QueryPage | src/content/ContentAvailability.cpp:548-630 | Each refusal has its exact condition; any other page is the next piece of one fixed sequence, counts exactly the cells it entered and the memberships it read, ends before the sequence does only where one of its limits is met, and its cursor resumes right behind it with progress made. |
| CoarseQuery.OnePageIsEnough | src/content/ContentAvailability.cpp:584-619 | With limits above all that is left, one page is Complete and is all of it. |
| CoarseQuery.FollowPages | src/content/ContentAvailability.cpp:548-630 | Following cursors under any sequence of legal limits terminates and concatenates to that one sequence. |
| CoarseQuery.PagesFindOverlaps | src/content/ContentAvailability.cpp:548-630 | The sequence names exactly the entries of the space whose cell boxes overlap the query's. |
| CoarseQuery.PagesMissNothing | src/content/ContentAvailability.cpp:548-630 | No entry whose bounds touch the query's is missed. |
| CoarseQuery.FullIsFound | src/content/ContentAvailability.cpp:584-619 | The linear paging order covers exactly what the cells of the box list. |
| CoarseQuery.Query | src/content/ContentAvailability.cpp:506-544 | Ascending without repeats, drawn from the same entries as the pages, and all of them unless the result limit is reached. |
| SpatialMetadata.Inspect | src/content/ResidencySpatialMetadata.cpp:21-88 | Early rejections are exact; past them compatible + rejected equals the number of units, counters equal key-by-key lookup, the issue list is the first 64 of all issues in key order, and the status is Compatible exactly when every unit fits and every spatial entry has one. |
| SpatialMetadata.MergeAll | src/content/ResidencySpatialMetadata.cpp:62-87 | The single merge pass agrees with looking every key up alone. |
| SpatialMetadata.NoIssueIsMatch | src/content/ResidencySpatialMetadata.cpp:67-82 | A unit is without issue exactly when an entry of its key has equal digest and space and enclosing bounds. |
| SpatialMetadata.CodeMeans | src/content/ResidencySpatialMetadata.cpp:67-82 | Which code a unit gets, each exactly by its condition on the entry of its key: no entry, another digest, another space, no bounds, or a point of the unit outside them. |
| SpatialMetadata.ContainsEveryPoint | src/content/ResidencySpatialMetadata.cpp:80-80 | One volume contains another exactly when it contains each of its points. |
| SpatialMetadata.CheckContents | src/content/ResidencySpatialMetadata.cpp:42-51 | Finds the first unacceptable or unsorted manifest entry, or none exactly when all are fine. |
| SpatialMetadata.CheckUnits | src/content/ResidencySpatialMetadata.cpp:52-61 | The same for metadata units. |
| InstanceForest.Instances.SetParent | src/classes/Instance.cpp:1132-1295 | In every reachable forest, nested data models included: accepted exactly when alive, the same owner, no cycle, within limits and adoptable. Then the instance is the last child of its new parent and gone from the list of its old one, on a first adoption everything moved gets the new data model and is counted there once, and nothing else differs; otherwise nothing changes. Exactness of counts is untouched, and one owner for parent and child is kept exactly under the stated condition. |
| InstanceForest.Instances.CheckMove | src/classes/Instance.cpp:1143-1180 | The guards pass exactly when the owner is compatible, the target is not in the subtree, and the subtree is within the limit. |
| InstanceForest.Instances.CollectSubtree | src/classes/Instance.cpp:1164-1178 | Collects exactly the subtree, once each, or refuses exactly when it exceeds the limit; the check after each push never fires. |
| InstanceForest.Instances.AdoptSubtree | src/classes/Instance.cpp:1181-1240 | Owns and counts the whole subtree exactly when it fits, every node is alive and answers to no data model, and the tags commit; otherwise nothing is left changed. |
| InstanceForest.Instances.GetDataModel | src/classes/Instance.cpp:447-452 | The recorded owner, else the root when that is a data model. |
| InstanceForest.Instances.Destroy | src/classes/Instance.cpp:364-413 | Destroys exactly the subtree, children first: every node loses its links and its owner (unless it owns itself), the instance is gone from its parent's list, and each node is released from the count of the data model it answered to. One owner is kept always, exact counts exactly under the stated condition. |
| InstanceForest.Instances.CheckNodes | src/classes/Instance.cpp:1192-1196 | Passes exactly when no node of the subtree is destroyed or answers to a data model. |
| ForestDestruction.LeafBounded | src/classes/DataModel.cpp:111-113 | Releasing a destroyed instance keeps every count between one and the limit, and never above one more than what is owned. |
| InstanceForest.Instances.Run | src/classes/Instance.cpp:364-1295 | Any run of creations, moves and destructions goes step by step as the events say, and links, acyclicity, owners, count bounds and retirement hold after it; owners change only by destruction; until a data model is put below a parent, which is reported exactly, one owner and exact counts hold too. |
| ForestMoves.MoveSound | src/classes/Instance.cpp:1181-1263 | An accepted move keeps all that holds in every reachable forest, and keeps counts exact exactly if they were. |
| ForestMoves.PlacedOneOwner | src/classes/Instance.cpp:1145-1263 | After an accepted move parent and child still answer to one data model exactly when all that moved is owned, or it answered to none, or the target stands below the data model itself; for a detachment, when all or none of it is owned. |
| ForestMoves.PlacedTidy | src/classes/Instance.cpp:1145-1263 | An accepted move leaves parent and child with one recorded owner, and data models as roots exactly unless it put one below a parent. |
| ForestMoves.PlacedReads | src/classes/Instance.cpp:1181-1263 | An accepted move, read link by link and owner by owner. |
| ForestDestruction.PrunedCounted | src/classes/Instance.cpp:396-411 | Destroying a subtree keeps every count exact exactly when, for each data model, nothing goes that stands below it unowned, or all that it owns goes. |
| ForestDestruction.PrunedOneOwner | src/classes/Instance.cpp:364-413 | Destruction never separates the data models of parent and child. |
| ForestDestruction.TidyNoStrays | src/classes/Instance.cpp:396-411 | While data models are roots with one recorded owner along each link, no destruction spoils a count. |
| InstanceForest.TidyOneOwner | src/classes/Instance.cpp:447-452 | While data models are roots, parent and child that record one owner answer to one data model. |
| ForestWitness.NestingSeparates | src/classes/Instance.cpp:1145-1153 | A concrete forest with one owner throughout, and the forest after a data model moved below a detached instance it owns: parent and child answer differently. |
| ForestWitness.Nest0 | src/classes/Instance.cpp:1145-1153 | That move is accepted. |
| ForestWitness.CountLostRun | src/classes/Instance.cpp:396-1263 | Five accepted moves from new instances, then one destruction, and a count is wrong. |
| ForestWitness.CountIsLost | src/classes/Instance.cpp:396-411 | Before that destruction all data models are roots and all counts exact; after it the count is not. |
| ForestState.NestedModelIsLost | src/classes/Instance.cpp:447-452 | A data model below an instance it owns answers to no data model while its parent still answers to it. |
| ForestState.TopModelsAgree | src/classes/Instance.cpp:447-452 | While data models are roots, walking to the root and the recorded owner agree. |
| ForestState.NoCycle | src/classes/Instance.cpp:1159-1163 | Following parents never returns. |
| ForestState.SubtreeUnique | src/classes/Instance.cpp:1164-1178 | The subtree of an instance is unique, so what was collected is what is moved. |
| WirePacer.Pacer.Refill | cmake/gns/OrdinaryWirePacer.cpp:28-36 | Credit becomes the saturated refill for the elapsed time; stale stamps add nothing, the first only starts the clock, and nothing wraps. |
| WirePacer.Permit.Reserve | cmake/gns/OrdinaryWirePacer.cpp:85-100 | Succeeds exactly when the permit is free, it is the flow's turn and the bucket is full by then; success takes the whole bucket and the flow leaves the queue, a refusal at its turn only brings the bucket up to date, and any other touches neither credit nor stamp. |
| WirePacer.Permit.Complete | cmake/gns/OrdinaryWirePacer.cpp:108-116 | Settles once: a data packet keeps its native bytes plus 48, an oversized one keeps all, anything else keeps nothing, and the rest goes back to the credit up to the cap. |
| WirePacer.Permit.Cancel | cmake/gns/OrdinaryWirePacer.cpp:118-123 | Gives the whole reservation back to the credit, up to the cap, once; a second call does nothing. |
| WirePacer.Pacer.Refund | cmake/gns/OrdinaryWirePacer.cpp:102-106 | Returns credit up to the cap, without wrapping. |
| WirePacer.Pacer.EligibleAt | cmake/gns/OrdinaryWirePacer.cpp:65-83 | Asking only brings the bucket up to date, or nothing at all when it gets no further than the guards. For flow 0 and the ready head a fresh permit succeeds at t exactly when t is at least the returned time, unless that saturates, computed from the credit and stamp before the call; a flow behind another is told when a bucket emptied by then would be full again. |
| WirePacer.Run | cmake/gns/OrdinaryWirePacer.cpp:21-123 | Every sequence of calls with arbitrary stamps goes call by call as stated for queue, credit, stamp and reservations; over it, retained debits, reservations and credit never exceed one bucket plus rate times elapsed time, and a flow that stays ready is overtaken by grants at most once per entry that was ahead of it. |
| WirePacer.Pacer.Request | cmake/gns/OrdinaryWirePacer.cpp:38-43 | Marks a known flow ready in place, appends a new one, refuses exactly when 32 others wait. |
| WirePacer.Pacer.Suspend | cmake/gns/OrdinaryWirePacer.cpp:50-54 | Keeps the flow's place but not its readiness. |
| WirePacer.Pacer.Forget | cmake/gns/OrdinaryWirePacer.cpp:56-63 | Removes exactly that flow and keeps the order of the others. |
| WirePacer.Pacer.FirstReadyIndex | cmake/gns/OrdinaryWirePacer.cpp:45-48 | The first ready place, or the count. |
| WirePacer.FullFrom | cmake/gns/OrdinaryWirePacer.cpp:70-82 | The bucket is full exactly from the rounded-up fill time on. |
| Arithmetic.CeilDivReaches | cmake/gns/OrdinaryWirePacer.cpp:33-33 | The rounded-up quotient is the least number of steps that reaches the amount. |
| PacerQueue.BoundedBypass | cmake/gns/OrdinaryWirePacer.cpp:38-100 | In every sequence of queue events, a flow that stays ready is overtaken at most once per entry ahead of it. |
| PacerQueue.StepForward | cmake/gns/OrdinaryWirePacer.cpp:38-100 | No queue operation moves a waiting flow back. |
| PacerQueue.ProtectedBurst | cmake/gns/OrdinaryWirePacer.hpp:82-96 | Between two retained sends at most seven positive protected sends occur. |
| PacerQueue.SevenToOne | cmake/gns/OrdinaryWirePacer.hpp:82-96 | Over any run protected sends stay within seven per retained send plus one open quantum. |
| PacerQueue.ExactShare | cmake/gns/OrdinaryWirePacer.hpp:82-96 | With both always ready, exactly every eighth send is retained. |
| OrdinaryService.Service.Observe | cmake/gns/ProtectedOrdinaryService.hpp:72-83 | Looking at seven heads only, the active flag is set exactly when some enrolled message anywhere has waited more than 50 ms. |
| OrdinaryService.Service.HeadsSuffice | cmake/gns/ProtectedOrdinaryService.hpp:69-83 | Some message is late exactly when some head is. |
| OrdinaryService.Service.HeadIsOldest | cmake/gns/ProtectedOrdinaryService.hpp:76-78 | A head accepted after the observation means that its whole origin was. |
| OrdinaryService.Service.Enroll | cmake/gns/ProtectedOrdinaryService.hpp:35-51 | Exact acceptance condition; an accepted message is appended to its origin's list, a refused one only spoils the evidence. |
| OrdinaryService.Service.FirstSend | cmake/gns/ProtectedOrdinaryService.hpp:53-67 | Counts body bytes, remembers lateness, releases the message exactly at its last byte, and only then raises the maximum latency to its own if that is greater. |
| OrdinaryService.Service.Forget | cmake/gns/ProtectedOrdinaryService.hpp:85-93 | Removes exactly that message; all lists stay linked and ordered. |
| OrdinaryService.Service.Unlink | cmake/gns/ProtectedOrdinaryService.hpp:88-92 | Relinking the two neighbours or the ends leaves a well-formed list without the message. |
| OrdinaryService.Service.Released | cmake/gns/ProtectedOrdinaryService.hpp:94-99 | Spoils the evidence and leaves no dangling link. |
| OrdinaryService.Service.Purge | cmake/gns/ProtectedOrdinaryService.hpp:100-104 | Empties every list and frees every message. |
| OrdinaryService.Run | cmake/gns/ProtectedOrdinaryService.hpp:35-104 | Any run keeps all seven lists well formed and ordered by acceptance. |
| WireBudget.AddChecked | cmake/gns/PromptAckWireBudget.hpp:13-17 | Succeeds exactly without 64-bit overflow. |
| WireBudget.MultiplyChecked | cmake/gns/PromptAckWireBudget.hpp:18-22 | The quotient guard succeeds exactly without overflow. |
| Periods.FindGcd | cmake/gns/PromptAckWireBudget.hpp:33-34 | Euclid's loop terminates with the greatest common divisor. |
| Periods.LcmLeast | cmake/gns/PromptAckWireBudget.hpp:31-36 | Every common multiple is a multiple of the computed period. |
| WireBudget.FindCommon | cmake/gns/PromptAckWireBudget.hpp:31-36 | Finds the least common period exactly when it fits a word. |
| WireBudget.CommonIsLeast | cmake/gns/PromptAckWireBudget.hpp:31-36 | No smaller number of seconds is a whole number of every period. |
| WireBudget.RateIsCeiling | cmake/gns/PromptAckWireBudget.hpp:37-45 | The rate is the exact ceiling of 4 x peers x packet x (1/ping + 1/instant + 1/lifetime). |
| WireBudget.Budget.ConfigureBackground | cmake/gns/PromptAckWireBudget.hpp:26-49 | Succeeds exactly when every input is nonzero, nothing overflows and the rate is affordable; then reserve + rate equals the available reserve. |
| ControlTraffic.BackgroundCovers | cmake/gns/PromptAckWireBudget.hpp:23-49 | In every window, control traffic at the minimum intervals is at most rate x time + burst. |
| WireBudget.Budget.Charge | cmake/gns/PromptAckWireBudget.hpp:54-59 | Adds datagram and header, or becomes invalid exactly on an empty datagram or overflow. |
| WireBudget.Budget.ChargeAll | cmake/gns/PromptAckWireBudget.hpp:50-59 | Over a whole grant the charge is the exact sum, or known to be unusable. |
| WireBudget.Budget.Ceiling | cmake/gns/PromptAckWireBudget.hpp:60-64 | The allowance is the grant's bytes plus the reserve's share of them, and exists exactly when nothing overflows. |
| WireBudget.QuotaBound | cmake/gns/PromptAckWireBudget.hpp:60-64 | The share is the largest number of pool units that the product of bytes and reserve covers. |
| WireBudget.Budget.CanRequest | cmake/gns/PromptAckWireBudget.hpp:65-70 | True exactly when the whole cost stays within the reserve's proportional share. |
| NodeForest.BuildParents | src/assets/GltfImporter.cpp:479-496 | Accepts exactly consistent children lists, and the parent table is their inverse. |
| NodeForest.CheckForest | src/assets/GltfImporter.cpp:497-509 | The three-colour visit accepts exactly the acyclic tables, and yields every node's depth. |
| NodeForest.VisitNode | src/assets/GltfImporter.cpp:498-506 | A refused visit proves a cycle; an accepted one settles the node's whole ancestry. |
| SkinOrder.OrderSkin | src/assets/GltfImporter.cpp:593-625 | Exact refusals; otherwise the canonical order, a permutation of the joints with parents first, so the final size check never fails. |
| SkinOrder.OrderIsPermutation | src/assets/GltfImporter.cpp:611-625 | The canonical order lists every joint once, each after its parent. |
| SkinOrder.AppendSubtree | src/assets/GltfImporter.cpp:612-619 | Appends a joint and its subtree in canonical order: a function of the joint set, not of the skin's listing. |
| SkinOrder.ExportParents | src/assets/GltfImporter.cpp:626-671 | Exported parents are earlier places that name the same nodes. |
| PoseHierarchy.EvaluateHierarchy | src/animation/AnimationRuntime.cpp:545-557 | One forward pass gives each joint the ordered product of locals along its whole lineage, and fails exactly when such a product is not finite. |
| PoseHierarchy.WholeLineage | src/animation/AnimationRuntime.cpp:545-557 | That product follows the scene's own ancestor chain. |
| PoseHierarchy.EvaluateSkin | src/animation/AnimationRuntime.cpp:545-557 | From scene and skin to evaluated skeleton: every model transform is the product along the scene lineage. |
| RootMotion.PowTransform | src/animation/AnimationRuntime.cpp:340-348 | Squaring computes the n-fold product for every n. |
| RootMotion.TrajectoryAt | src/animation/AnimationRuntime.cpp:350-381 | Read off the clip: unlooped its pose at the time, or its last pose past the end; looped, n whole cycles and then the pose x into the next, for the one n and x with t = n duration + x; the clamp of the remainder never bites. |
| RootMotion.LoopShift | src/animation/AnimationRuntime.cpp:371-380 | k cycles later the trajectory is the same one carried on from k cycles of motion. |
| RootMotion.EvaluateRootMotion | src/animation/AnimationRuntime.cpp:383-412 | Read off the clip: unlooped, from the pose at the start of the interval to the pose at its end, past the end the last pose; looped, back from the pose in one cycle, through the whole cycles in between, and on to the pose in the other; nothing exactly when a pose is unknown, a count too large, or the motion beyond the limits. |
| RootMotion.LoopedMotion | src/animation/AnimationRuntime.cpp:371-394 | The delta over a looped interval, across any number of cycles in either direction. |
| RootMotion.MotionIsWhole | src/animation/AnimationRuntime.cpp:383-412 | However a span is cut into frames and however often it wraps, the frame deltas compose to the delta over the span. |
| RootMotion.SteppingBackIsStill | src/animation/AnimationRuntime.cpp:370-370 | An interval that runs backwards onto the clip's end moves nothing. |
| RootMotion.AppliedIsWhole | src/animation/AnimationRuntime.cpp:383-412 | What the character received over a span is the delta over the span exactly when the dropped motions, each carried to where the character stood, multiply to the identity. |
| RootMotion.LostAndApplied | src/animation/AnimationRuntime.cpp:383-412 | What the clip moved is always the lost motions followed by the received ones. |
| RootMotion.NothingLost | src/animation/AnimationRuntime.cpp:383-412 | Nothing is lost while every frame is within the limits. |
| RootMotion.OneDropIsLost | src/animation/AnimationRuntime.cpp:383-412 | A single frame beyond the limits is always lost motion, as long as standing still is within them. |
| RootMotion.DropsMayCancel | src/animation/AnimationRuntime.cpp:383-412 | A concrete clip whose two frames are both beyond the limits and yet lose nothing together: the condition is on what was lost, not on each frame. |
| AnimationTrack.MotionTrack.SetLooped | src/animation/AnimationTrack.cpp:69-75 | Changing the loop restarts the motion at the current time. |
| AnimationTrack.MotionTrack.SetTimePosition | src/animation/AnimationTrack.cpp:92-105 | Seeking clamps and restarts the motion there; seeking to the same place does nothing unless at the natural end. |
| AnimationTrack.MotionTrack.Play | src/animation/AnimationTrack.cpp:115-126 | Restarts clock and motion at zero. |
| AnimationTrack.MotionTrack.Stop | src/animation/AnimationTrack.cpp:142-153 | Resets clock and motion unless already at rest. |
| AnimationTrack.MotionTrack.SetRootMotionEnabled | src/animation/AnimationTrack.cpp:77-82 | Becoming the source restarts the motion; ceasing keeps the clock. |
| AnimationTrack.MotionTrack.AdvanceRuntime | src/animation/AnimationTrack.cpp:155-181 | Moves the clock by delta times speed, unlooped no further than the end, and the time position with it: to the same time unlooped, to the place in the current cycle when looped. The clock runs backwards exactly when the loop was turned off after the clip's end had passed. |
| AnimationTrack.MotionTrack.Step | src/animation/AnimationRuntime.cpp:840-855 | Hands out the interval since the last sample exactly when required; a baseline is never missing. |
| AnimationTrack.Run | src/animation/AnimationTrack.cpp:69-181 | Over any run of frames and controls, the intervals handed out and the restarts, in the order in which the track logged them, fall into segments whose intervals abut, the first from the old sample, each later one from where the motion restarted, the last up to the current sample. |
| AnimationTrack.SegmentsSpellMarks | src/animation/AnimationTrack.cpp:69-181 | Cutting a log into segments loses, adds and reorders nothing: the segments spell the log again. |
| AnimationTrack.SegmentMotion | src/animation/AnimationRuntime.cpp:849-855 | In every segment cut from a log that fits a track, the frame deltas compose to the delta over the segment. |
| AnimationTrack.RunComposes | src/animation/AnimationRuntime.cpp:849-855 | That holds of every segment of the log of every run. |
| AnimationTrack.StepsBack | src/animation/AnimationTrack.cpp:155-181 | A concrete track of a one-second clip that loops to 3.0, stops looping and then hands out the interval from 3.0 back to 1.0. |
| ByteCodec.ReadWord | src/assets/AssetImporter.cpp:58-83 | Reads exactly when enough bytes remain, and what it reads is what stands there. |
| ByteCodec.AppendWord | src/assets/AssetImporter.cpp:43-56 | Appends the little-endian bytes. |
| ByteCodec.ReadWords | src/assets/AssetImporter.cpp:1022-1027 | Where a list was written it returns that list, exactly when all of it is acceptable. |
| FloatRows.ReadRows | src/assets/AssetImporter.cpp:1014-1020 | The same for rows of finite floats accepted in sequence. |
| ArtifactCollision.ValidateCollision | src/assets/AssetImporter.cpp:91-122 | Accepts exactly values with limits kept, finite positions in range, bounds equal to the true extremes, and distinct in-range non-degenerate triangles. |
| ArtifactCollision.DecodeCollision | src/assets/AssetImporter.cpp:997-1034 | Round trip without condition, every byte consumed, and nothing else decodes. |
| ArtifactMedia.DecodeImage | src/assets/AssetImporter.cpp:898-909 | Round trip exactly within the decoder's dimension limits. |
| ArtifactMedia.EnormousImage | src/assets/AssetImporter.cpp:637-639 | 2^31 by 2^31 pixels without a byte are accepted by the encoder, because the size wraps, and not readable. |
| ArtifactMedia.DecodeFont | src/assets/AssetImporter.cpp:911-919 | Round trip without condition. |
| ArtifactMedia.DecodeMaterial | src/assets/AssetImporter.cpp:921-960 | Round trip exactly when references are valid and the alpha mode is known. |
| ArtifactMedia.DecodeAudio | src/assets/AssetImporter.cpp:962-995 | Round trip without condition. |
| ArtifactMesh.EncodeMesh | src/assets/AssetImporter.cpp:661-704 | Accepts exactly meshes with sizes, indices, primitive ranges and identifiers in order, and writes what stands for them. |
| ArtifactMesh.PlainIsOneRange | src/assets/AssetImporter.cpp:668-690 | A mesh without a primitive list is accepted exactly when its indices make whole triangles and its other parts are in order, and is written as one primitive over all its indices. |
| ArtifactMesh.DecodeMesh | src/assets/AssetImporter.cpp:1147-1291 | For the current versions: round trip to the canonical mesh exactly when all floats are finite and no normal vanishes. |
| ArtifactAnimation.EncodeAnimation | src/assets/AssetImporter.cpp:796-874 | Accepts exactly valid tracks and writes rotations normalised. |
| ArtifactAnimation.KeysRise | src/assets/AssetImporter.cpp:832-848 | Accepted keys are finite, lie within the clip and rise strictly in time from the first to the last, and such keys are accepted. |
| ArtifactAnimation.ScaleKeysRise | src/assets/AssetImporter.cpp:832-845 | Scale keys rise too, none is almost nothing on an axis, and interpolated ones never change sign; exactly such keys are accepted. |
| ArtifactAnimation.DecodeAnimation | src/assets/AssetImporter.cpp:1036-1145 | Reads exactly what the acceptance rules allow and normalises again. |
| AssetArtifact.EncodeArtifact | src/assets/AssetImporter.cpp:618-879 | Writes header and payload exactly for accepted values of the named kind within 64 MiB; meshes are static ones. |
| AssetArtifact.DecodeArtifact | src/assets/AssetImporter.cpp:881-1291 | Whatever was written decodes exactly when it fits; whatever decodes was written, mesh version 1 apart, and skinned meshes are refused. |
| AssetArtifact.RoundTrip | src/assets/AssetImporter.cpp:618-1291 | For every accepted value: decoding its bytes gives the restored value exactly when it fits, else nothing. Audio, fonts, collision shapes and animations with settled rotations always come back as they were, images and materials as they were if at all; a mesh comes back with every field as it was, its primitive list made explicit (one primitive over all indices if it had none) and counted. |
| AssetArtifact.SettledComesBack | src/assets/AssetImporter.cpp:1111-1130 | An animation whose rotations are fixed points of normalisation comes back as it was. |
| AssetArtifact.Recode | src/assets/AssetImporter.cpp:618-1291 | Decoding and encoding reproduces the bytes for materials, audio, collision shapes and current static meshes. |

## Left out

- Reading files, paths, JSON text and the textual entry pre-count: the manifest model starts from a parsed entry list, and its other field checks are one flag per entry.
- Signals, scripting, security contexts, the change journal, revisions and re-entrant callbacks.
- Metrics, timing, diagnostics and diagnostic texts; encoders and decoders report refusal without its code.
- `ContentAvailabilityService::Stop`, session generations, and exceptions inside worker jobs.
- Looking a key up: calls on units take the unit's index, and a missing key is an index out of range.
- ContentAvailability.ContentAvailabilityService.Request: takes an index of an existing unit, because its callers have already looked the key up.
- ContentAvailability.ContentAvailabilityService.Step: is one atomic action towards the workers; the calls for their reports need only the invariant, which also holds between the passes of a step. For a tick of several reports, only the first report's loss is computed from the state before the tick; for the later ones it is known that losses never shrink.
- ContentAvailability.ContentAvailabilityService.FinishContent: the slot and the reserved bytes are given back at the end of a completion's turn instead of at its start; nothing in between reads them.
- ContentAvailability.ContentAvailabilityService.AdmitUnit: decoding, materialising and handing over a document are answers from outside (`World`), so package object identities are not modelled.
- DecodedBudget.EveryInterleavingFits: sequentially consistent steps; relaxed memory order is not modelled, which for single-variable read-modify-write counters adds no behaviour, and the deferral counter is left out.
- CoarseIndex.Build: the process-wide epoch counter is a parameter, and non-finite bounds and cell sizes cannot be expressed, where the program refuses them.
- CoarseQuery.QueryPage: running out of memory is not modelled.
- InstanceForest.Instances.SetParent: instances are identities in maps rather than heap objects; hierarchy depth, schema, reference and tag checks of a first adoption are one answer from outside, whether the tags commit another.
- ContentAvailability.PendingLeaks: its state meets every invariant, but is not shown to be reachable from the start.
- WirePacer.Permit.Reserve: the mutex makes each call atomic, and each call is one step here.
- OrdinaryService.Service.Enroll: message numbers and the last pending message are left out; times and byte counts are unbounded.
- OrdinaryService.Run: states what every run keeps; what one call does is stated on that call.
- NodeForest.BuildParents: an index that is not an unsigned number is a negative one here.
- RootMotion.TrajectoryAt: a cycle count of exactly 2^64 passes the program's range check and then overflows its conversion; here it counts as 2^64.
- RootMotion.EvaluateRootMotion: yields the whole delta, of which the program passes on translation and yaw.
- AnimationTrack.MotionTrack.SetRootMotionEnabled: one track; being displaced by another track is the same as being disabled.
- ArtifactMedia.EncodeImage: an image here always has a buffer; the program refuses one without.
- AssetArtifact.EncodeArtifact: skinned meshes (version 3) cannot be expressed.
- AssetArtifact.DecodeArtifact: skinned meshes (version 3) are refused here, because the program normalises their bind rotations on reading and gives back other bits.
- ArtifactMesh.DecodeMesh: reads the first version, but promises about its result only for the current ones.
- Importers, image and font decoding, skinning, interpolation, rendering, physics, audio mixing, packaging and the native egress worker.
- The service-curve helpers and the reliable-service feedback that mirrors them.
