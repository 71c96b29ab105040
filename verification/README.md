# Verified model of the hub's ingest-and-decision pipeline

A Dafny model of the location hub's core: the geofence engine and its bounding-box index, the
collision engine, the proximity resolver, the Kalman stage, ingest deduplication and its expiring
store, the event bus subscriber, the sharded decision queue and the metadata cache, together with
the convex hull and replay helpers of the connectors and the JSON-RPC response collector.

Code that changes state is modelled by classes and loops, each proved against a specification
function; what the code promises is then proved about those functions over all inputs and all runs.

| File | Models |
|---|---|
| `RingGeometry.dfy`, `FenceIndex.dfy` | even-odd ray casting, ring distance, bounding boxes, indexed lookup against a plain scan |
| `FenceRules.dfy`, `FenceHistory.dfy`, `FenceEngine.dfy` | the timed state machine of one (trackable, fence) pair, its state read off the looks, and the loops that drive all pairs |
| `FencePipeline.dfy`, `FenceRuns.dfy` | index, geometry and engine together, and whole runs of the engine with sweeps |
| `ProcessingState.dfy`, `StoreHistory.dfy` | the expiring store and its sweeper, and its answers read off the calls |
| `DedupEncoding.dfy`, `DedupLocation.dfy`, `IngestDedup.dfy` | the hashed byte stream of a location and what suppression means |
| `CollisionGrid.dfy`, `CollisionEpisodes.dfy` | the spatial grid, and the start/colliding/end protocol of a pair |
| `Proximity.dfy`, `Kalman.dfy` | zone hysteresis, and the per-axis filter with its tracks |
| `CoalescingKeys.dfy`, `EventBus.dfy`, `EventFates.dfy`, `EventSubscriber.dfy` | coalescing delivery to one subscriber, and which events it drops |
| `KeyMoves.dfy`, `EventOrder.dfy`, `EventRaces.dfy` | order and latest value of one key, and the runs that break them |
| `DecisionQueue.dfy` | routing, bounded queues and batches |
| `MetadataCache.dfy` | incrementally kept indexes and the reconciliation diff |
| `ConvexHull.dfy`, `Replay.dfy` | connector helpers |
| `RpcCollect.dfy` | response aggregation |
| `Sequences.dfy`, `Wrappers.dfy` | shared vocabulary |

## Promises that do not hold unconditionally

Each of these comes with the exact condition under which the code meets the promise, and with an
input for which it does not.

- The box of a ring hides no accepted point exactly when the ends left loose by undecodable
  positions balance at every vertex height (`RingGeometry.BoxSoundIffBalanced`); one undecodable
  position can make the loop accept a point far outside (`RingGeometry.UndecodableVertexEscapes`).
- A lookup through the index misses exactly the rings that accept the location outside their own
  box and the zero-radius circles it hits at the centre (`FenceIndex.FencesForLocation`,
  `FenceIndex.UnindexedContaining`); there are no such rings in a scope exactly when its boxed rings
  are well ended (`FenceIndex.NothingEscapesIff`).
- A delayed exit comes exactly if some look falls between the exit delay and the expiry of the
  membership as written when the pair left, since nothing renews it in between
  (`FenceRules.DelayedExitIff`, `FenceRules.LeavingExitsIff`). Sparse looks lose the exit although
  the delay is below the time-to-live (`FenceRules.SparseLooksLoseExit`).
- The first evaluation of a lasting collision after the debounce gives a colliding event exactly if
  it comes before the expiry of the last announcement, and otherwise a new start
  (`CollisionEpisodes.NextAnnouncement`, `CollisionEpisodes.FirstDueDecides`,
  `CollisionEpisodes.SparseEvaluationsRestart`). An episode ends with an event exactly in the
  corners of the rectangle test (`CollisionEpisodes.EndsOnlyInCorners`,
  `CollisionEpisodes.LeavingRectangleIsSilent`).
- With several emitters of one key, a subscriber keeps the order of the key exactly while no event
  is sent directly past one still on its way (`EventOrder.OrderedIff`,
  `EventRaces.TwoEmittersReorder`), and its latest value exactly while moreover no clear or remove
  takes away a pending value other than the one in flight and no send is given up after its value
  was cleared (`EventOrder.LatestKeptIff`). Accepted events can be lost without a drop being counted,
  with two emitters (`EventRaces.TwoEmittersLose`) and in the gap between peek and remove even with
  one (`EventRaces.LatestLost`, `EventOrder.OneEmitterKeepsLatestIff`). Several emitters of one key do
  occur: motion events are keyed by provider and trackable, work is sharded by provider and source.
- The collision grid finds all hits but those outside the searched cells
  (`CollisionGrid.CollidingMotions`); there are none while projected offsets stay within padding times
  metres (`CollisionGrid.GridLosesNothing`), and there are some far north
  (`CollisionGrid.MissedFarNorth`).
- Two events share a coalescing key exactly when kind and scope agree and their identities are
  equal or a separator can shift between provider and identifier (`CoalescingKeys.SameKeyIff`,
  `CoalescingKeys.StreamsCoalesce`).
- The index by foreign id finds every zone throughout a run of changes exactly when foreign ids are
  unique throughout (`MetadataCache.CompleteThroughoutIff`); in general it holds the last claim to
  an id unless that zone was changed since (`MetadataCache.ForeignLookupIff`), so deleting one of
  two zones that share an id hides the other (`MetadataCache.SharedForeignIdForgotten`).
- A provider lookup equals a scan exactly when no trackable repeats the provider
  (`MetadataCache.ProviderLookupIsScanIff`).
- Sweeps are invisible in every run that uses a membership update exactly when the update overwrites
  both timers (`ProcessingState.UpdateInvisibleIff`), as the fence engine's updates do; one that
  keeps a timer sees expired ones come and go (`ProcessingState.PartialUpdateShows`).
- An expanded replay log is in global time order exactly when no filled gap overlaps another
  object's item (`Replay.SortedIff`, `Replay.OutOfOrder`); a preview can succeed for a log that
  cannot be expanded (`Replay.ExpandsIff`, `Replay.PreviewTooOptimistic`).

## Model

| member | source | states |
|---|---|---|
| `RingGeometry.PointInRing` | internal/hub/service.go:3351-3373 | The flipping loop answers true exactly when an odd number of the ring's decodable cyclic edges have one end above the point, the other not, and a point of the edge level with it to its right. |
| `RingGeometry.MeetOnEdge` | internal/hub/service.go:3365-3366 | Where an edge straddles a height, the computed x and that height are a point of the edge. |
| `RingGeometry.CrossesIff` | internal/hub/service.go:3365-3366 | For every edge and point the loop's comparison holds exactly when the ends straddle and some point of the edge is level with the point and to its right. |
| `RingGeometry.RingBoundingBox` | internal/hub/metadata_cache.go:720-763 | The accumulated box contains every decodable vertex and each of its sides touches one; there is none exactly when no vertex decodes. |
| `RingGeometry.StraddleParity` | internal/hub/service.go:3351-3373 | For every cyclic ring and height, the number of straddling edges has the parity of the number of ends above that height left loose by undecodable positions. |
| `RingGeometry.AcceptedInBox` | internal/hub/metadata_cache.go:715-763 | With balanced ends, every point the even-odd loop accepts lies in the closed bounding box. |
| `RingGeometry.DecodableBalanced` | internal/hub/service.go:3351-3373 | A ring whose positions all decode has balanced ends. |
| `RingGeometry.BoxSoundIffBalanced` | internal/hub/metadata_cache.go:715-763 | The box contains all accepted points if and only if the ends balance at every vertex height. |
| `RingGeometry.UndecodableVertexEscapes` | internal/hub/service.go:3354-3363 | A concrete ring with one undecodable position accepts a point outside its box. |
| `RingGeometry.SegmentClosest` | internal/hub/service.go:3404-3421 | No point of a segment, degenerate or not, is closer than the clamped projection. |
| `RingGeometry.PointToRingDistanceSq` | internal/hub/service.go:3375-3402 | The result is attained on some edge and no point of any edge is closer; there is an error exactly when no edge decodes. |
| `FenceIndex.FenceBoundingRect` | internal/hub/metadata_cache.go:699-763 | A fence gets a box exactly when it is a circle of positive radius or an outer ring with a decodable vertex, and the box bounds it. |
| `FenceIndex.ContainedInBox` | internal/hub/service.go:3306-3350 | Whatever the circle test or a ring with balanced ends accepts lies in the fence's box. |
| `FenceIndex.UnindexedContaining` | internal/hub/metadata_cache.go:699-719 | A containing fence has no box exactly when it is a zero-radius circle hit at its centre. |
| `FenceIndex.BuildFenceIndexes` | internal/hub/metadata_cache.go:593-617 | Every scope's tree holds exactly the boxed fences of that scope, each with its own box. |
| `FenceIndex.FenceCandidates` | internal/hub/metadata_cache.go:619-648 | The candidates are the scope's entries whose closed box meets the point and whose floor matches, up to order. |
| `FenceIndex.ScopeIff` | internal/hub/metadata_cache.go:650-687 | A location meets the fences given in its named reference system, else those local to the zone its source names, else the geographic ones; a local one without a zone meets none. |
| `FenceIndex.FloorsApart` | internal/hub/metadata_cache.go:689-697 | Floors keep a fence and a location apart exactly when both have one and they differ. |
| `FenceIndex.ContainsIff` | internal/hub/service.go:3306-3342 | A circle contains exactly the points no farther than its radius, a polygon exactly those from which the ray meets its outer ring an odd number of times, an unreadable region none. |
| `FenceIndex.ScanSplits` | internal/hub/metadata_cache.go:593-763 | A scan of all fences of a scope finds what a scan of the boxed ones finds and the zero-radius circles hit at their centre. |
| `FenceIndex.IndexAgreesWithScan` | internal/hub/metadata_cache.go:619-648 | Testing the candidates finds what a scan of the boxed fences of the scope finds, but for rings that accept the location outside their own box. |
| `FenceIndex.WellEndedNothingEscapes` | internal/hub/metadata_cache.go:699-763 | If the boxed rings of the scope are well ended, no ring accepts a location outside its box, so only the centre hits are missed. |
| `FenceIndex.NothingEscapesIff` | internal/hub/metadata_cache.go:699-763 | Nothing escapes at any location of a scope if and only if every boxed ring of the scope is well ended. |
| `FenceIndex.FencesForLocation` | internal/hub/service.go:3019-3046 | For all fences, a plain scan of scope, floor and containment equals the indexed result plus the rings that accept the location outside their own box plus the zero-radius circles hit at their centre. |
| `FenceRules.PolicyPrecedence` | internal/hub/service.go:2067-2115 | Exit tolerance, tolerance timeout and exit delay each come from the most specific of trackable, provider and fence that sets it, and switching a duration off counts as setting it. |
| `FenceRules.ExitJustified` | internal/hub/service.go:1960-2018 | In every run an exit is preceded, at least the exit delay earlier, by a step since which every step was outside and ready; that step's membership was still alive. |
| `FenceRules.DelayedExitIff` | internal/hub/service.go:1994-2018 | Once pending since step m and ready at every look since, the first look after the delay exits if and only if it comes before the membership of step m expires; the membership is gone either way. |
| `FenceRules.LeavingExitsIff` | internal/hub/service.go:1982-2018 | A pair that leaves and stays beyond the tolerance gets its exit if and only if some look falls between the exit delay and that expiry. |
| `FenceRules.SparseLooksLoseExit` | internal/hub/service.go:2001-2003 | With a time-to-live of 30 and a delay of 25, looks at 1, 21 and 41 after an entry emit no exit and lose the membership. |
| `FenceRules.DelayBeyondTtlNeverExits` | internal/hub/service.go:1994-2003 | In particular an exit delay no shorter than the membership time-to-live never lets an exit out. |
| `FenceRules.ToleranceExitJustified` | internal/hub/service.go:2025-2047 | An exit from within tolerance needs an active timeout and an in-tolerance observation at least that timeout earlier with no inside observation since. |
| `FenceRules.NoExitWithinTolerance` | internal/hub/service.go:2038-2041 | Without an active timeout no run exits from within tolerance. |
| `FenceRules.ExitClosesEntry` | internal/hub/service.go:1960-2018 | Each exit closes exactly one earlier entry of the pair, with no event between. |
| `FenceRules.ReentryMeansLoss` | internal/hub/service.go:1940-1972 | Two entries without an exit between them mean that the membership expired or was cleared between them. |
| `FenceHistory.WrittenIff` | internal/hub/service.go:1960-2018 | In every run there is a membership exactly if some look wrote it (inside, outside but not ready, or starting a countdown) and the looks since only waited; it expires by that look's own time and time-to-live. |
| `FenceHistory.EntryIff` | internal/hub/service.go:1965-1981 | In every run an entry is emitted exactly by an inside candidate look at which no earlier look's membership is within that look's own time-to-live. |
| `FenceHistory.ReentryIff` | internal/hub/service.go:1980-1993 | Between two inside looks with only tolerated looks in between, the second enters exactly if some look came too late for the one before it. |
| `FenceHistory.InsideLooksRenew` | internal/hub/service.go:1980-1981 | With a time-to-live of 30, inside looks at 0, 20 and 40 give one entry. |
| `FenceHistory.CountdownIff` | internal/hub/service.go:1994-2003 | A countdown runs exactly since the look that started it, with nothing but waiting looks in between. |
| `FenceHistory.ToleranceIff` | internal/hub/service.go:2025-2047 | The tolerance clock runs exactly since the first look of a stretch within tolerance; a look beyond it stops the clock. |
| `FenceHistory.ReadyIff` | internal/hub/service.go:2025-2047 | A look is ready to exit exactly if the membership is held, it is outside, and beyond the tolerance or tolerated for the active timeout since the stretch began. |
| `FenceHistory.ExitIff` | internal/hub/service.go:1982-2018 | An exit is emitted exactly by a ready look whose exit delay has passed since the countdown began, or at once without a delay. |
| `FenceHistory.ToleranceExitIff` | internal/hub/service.go:1987-2003 | The first look after the tolerance timeout exits, or starts the countdown of an exit delay, exactly if every look since the stretch began came within the time-to-live of the one before. |
| `FenceEngine.ActiveFences` | internal/hub/processing_state.go:206-226 | Lists exactly the live memberships of a trackable, drops its expired ones and leaves the others. |
| `FenceEngine.GatherCandidates` | internal/hub/service.go:1936-1959 | Location candidates are examined as found, other active fences only if they exist and match the floor, and the remaining active ones are cleared. |
| `FenceEngine.FenceEngine.ObservePair` | internal/hub/service.go:1960-2018 | The switch performs one observation of the pair: an inside look writes a membership for its full time-to-live and enters exactly if none was held, a look not ready to exit renews it silently, and every other membership is unchanged. |
| `FenceEngine.FenceEngine.TestFences` | internal/hub/service.go:1960-2019 | Whatever order the map of fences is walked in, each gathered pair makes exactly its one step. |
| `FenceEngine.FenceEngine.EvaluateTrackable` | internal/hub/service.go:1926-2020 | For every fence of one trackable, gathered or not, the call is one step of the pair's state machine. |
| `FenceEngine.FenceEngine.PublishFenceEvents` | internal/hub/service.go:1894-2023 | For every pair the whole call is as many steps as the location names the trackable, with exactly their events in order. |
| `FenceEngine.FenceEngine.ForgetTrackable` | internal/hub/service.go:3009-3014 | Deleting provider state is the forgetting step for all pairs of the trackable and for no other. |
| `FenceEngine.FenceEngine.Sweep` | internal/hub/processing_state.go:392-441 | The memberships lose exactly their expired entries. |
| `FencePipeline.StepsAgree` | internal/hub/service.go:1908-1958 | For every state and every pair whose fence does not accept the location outside its own box, candidates from the index and from a scan of the boxed fences give the same step and event. |
| `FencePipeline.NoneSlips` | internal/hub/metadata_cache.go:699-763 | In a scope whose boxed rings are well ended no fence accepts a location outside its own box, so index and scan agree for every pair. |
| `FencePipeline.ToleranceIsNearness` | internal/hub/service.go:3306-3342 | A location outside a fence is within the exit tolerance exactly when some point of the ring, or the disc, is that near; a fence that cannot be measured counts as near. |
| `FencePipeline.PublishLocation` | internal/hub/service.go:1894-2023 | Index lookup and engine together perform, for every pair whose fence does not accept the location outside its own box, the steps of a scan, and emit exactly their events in order. |
| `FenceRuns.SameEventsSweptOrNot` | internal/hub/processing_state.go:392-441 | In every chronological run of a pair, sweeps strewn in anywhere, and candidates from index or scan, leave the pair's events those of the sweepless run. |
| `FenceRuns.Perform` | internal/hub/service.go:1894-2023 | For every sequence of location calls, forgotten trackables and sweeps on one engine, each pair's events are those of its own run of the state machine, in which sweeps play no part. |
| `FenceRuns.SweptIsAlive` | internal/hub/processing_state.go:392-441 | Sweeping the membership map is dropping each pair's membership once expired. |
| `ProcessingState.StoreRefinesIdeal` | internal/hub/processing_state.go:78-441 | In every chronological run each answer is that of an ideal store that is never swept or cleaned up on reads; what that store answers is told from the calls in `StoreHistory`. For reads of memberships, with updates that overwrite both timers. |
| `StoreHistory.GetIff` | internal/hub/processing_state.go:89-110 | In every chronological run a get returns a value exactly if some earlier call set the cell to it with a time-to-live that reaches past the get, and no set or delete of the cell lies between. |
| `StoreHistory.ListIff` | internal/hub/processing_state.go:112-125 | A listing holds exactly the cells of its table that such a get would find, with their expiries. |
| `StoreHistory.MembershipStateIff` | internal/hub/processing_state.go:228-282 | With updates of any kind, a membership reads as given timers exactly if some earlier call wrote them with a time-to-live that reaches past the read, and no write or clearing of the pair lies between. |
| `StoreHistory.ListInsideIff` | internal/hub/processing_state.go:206-226 | A listing of a trackable holds exactly its memberships that such a read would find. |
| `StoreHistory.RefusedIff` | internal/hub/processing_state.go:78-87 | A dedup key is refused exactly while an earlier call accepted for it is within its own time-to-live. |
| `StoreHistory.LaterSetReplaces` | internal/hub/processing_state.go:89-93 | Setting 1 and then 2 within the time-to-live reads as 2. |
| `ProcessingState.SweepInvisible` | internal/hub/processing_state.go:392-441 | Every call answers the same with and without the sweeps before it; reads of memberships, with updates that overwrite both timers. |
| `ProcessingState.SweepShowsIff` | internal/hub/processing_state.go:257-269 | On every store, a sweep just before an update makes a difference exactly when it takes away expired timers on which the closure depends. |
| `ProcessingState.UpdateInvisibleIff` | internal/hub/processing_state.go:257-269 | In all runs that use a closure, beside overwriting ones, no call notices any sweep if and only if the closure overwrites both timers. |
| `ProcessingState.PartialUpdateShows` | internal/hub/processing_state.go:257-269 | A closure that restarts only one timer, and a run in which reading after it tells whether a sweep came before. |
| `ProcessingState.AcceptedApart` | internal/hub/processing_state.go:78-87 | Dedup calls of one key that the store accepts are at least the earlier one's time-to-live apart, in every run. |
| `ProcessingState.RefusedHasWitness` | internal/hub/processing_state.go:78-87 | A refused dedup call has an earlier accepted one for the key that has not expired. |
| `ProcessingState.SweepMap` | internal/hub/processing_state.go:392-441 | A sweep loop leaves exactly the live entries. |
| `ProcessingState.ListTable` | internal/hub/processing_state.go:112-125 | A listing loop returns the live entries of its table and deletes only expired ones of that table. |
| `ProcessingState.ListMemberships` | internal/hub/processing_state.go:206-226 | The same for the memberships of one trackable. |
| `ProcessingState.TransientStore.Deduplicate` | internal/hub/processing_state.go:78-87 | Answer and new state are those of the store's step function. |
| `ProcessingState.TransientStore.Get` | internal/hub/processing_state.go:95-104 | Returns an entry only while it lives and deletes it lazily, as in the step function. |
| `ProcessingState.TransientStore.UpdateMembership` | internal/hub/processing_state.go:257-269 | Hands the stored timers, expired or not, to the closure and renews the expiry, as in the step function. |
| `ProcessingState.TransientStore.SweepExpired` | internal/hub/processing_state.go:392-441 | All maps lose exactly their expired entries. |
| `DedupEncoding.UvarintCancel` | internal/hub/service.go:3265-3269 | A length prefix can be read off a stream in one way only. |
| `DedupEncoding.AscendingUnique` | internal/hub/service.go:3165-3176 | A set of map keys has a single ascending listing, so iteration order cannot reach the stream. |
| `DedupEncoding.ValueCancel` | internal/hub/service.go:3178-3248 | Arbitrarily nested dynamic values with equal encodings are equal, whatever follows them. |
| `DedupLocation.StreamInjective` | internal/hub/service.go:3050-3285 | Locations with equal byte streams agree in every hashed field. |
| `DedupLocation.SortKeys` | internal/hub/service.go:3165-3172 | Collecting keys in any order and sorting them gives the one ascending listing. |
| `DedupLocation.Hasher.HashAny` | internal/hub/service.go:3178-3248 | The recursive writer appends exactly the value's encoding. |
| `DedupLocation.Hasher.HashMap` | internal/hub/service.go:3165-3176 | The map writer appends the count and the entries in key order. |
| `DedupLocation.Hasher.HashLocation` | internal/hub/service.go:3050-3084 | The field-by-field writer appends exactly the location's stream. |
| `IngestDedup.SuppressedByEqual` | internal/hub/service.go:1366-1371 | With a collision-free hash, a suppressed location equals one accepted less than its time-to-live ago, in every run with sweeps. |
| `IngestDedup.SuppressedIff` | internal/hub/service.go:1366-1371 | With a collision-free hash, a location is suppressed exactly if an equal one was accepted less than its time-to-live ago. |
| `CollisionGrid.BuildIndex` | internal/hub/service.go:2292-2303 | Every cell lists exactly the motions that fall into it. |
| `CollisionGrid.Nearby` | internal/hub/service.go:2305-2324 | The nested search loops return each motion within the cell radius exactly once and no other. |
| `CollisionGrid.CellsApart` | internal/hub/service.go:2601-2603 | Points at most d apart lie at most ceil(d/100) cells apart. |
| `CollisionGrid.PlanarWithinScale` | internal/hub/service.go:2305-2324 | In a planar space the projected offset is within the scale bound that the grid search needs, without padding. |
| `CollisionGrid.CollidingMayCollide` | internal/hub/service.go:2408-2428 | The rectangle test never rejects a pair the radius test accepts. |
| `CollisionGrid.CollidingIff` | internal/hub/service.go:2408-2428 | The test on squares holds exactly when the distance is at most the sum of the radii. |
| `CollisionGrid.EffectiveRadius` | internal/hub/service.go:2591-2599 | A positive radius of the trackable's own prevails over a positive default, and that over half a metre. |
| `CollisionGrid.RadiusCells` | internal/hub/service.go:2310-2313 | The least number of cells, but at least one, that covers the padded search distance. |
| `CollisionGrid.MaxActiveRadius` | internal/hub/service.go:2178-2188 | The largest effective radius of the known active motions, at least the default: it dominates each of them and is the default or one of them. |
| `CollisionGrid.GridLosesNothing` | internal/hub/service.go:2178-2215 | Where projected offsets stay within padding times metres, no hit lies outside the searched cells. |
| `CollisionGrid.MissedFarNorth` | internal/hub/service.go:2605-2628 | Two motions of radius 60 that are 100 metres apart near 80 degrees of latitude: five cells apart, three searched, and missed. |
| `CollisionGrid.CollidingMotions` | internal/hub/service.go:2189-2215 | For all motions and projections, the hits of a full scan with the radius test are what grid, rectangle and radius test find together plus the hits outside the searched cells. |
| `CollisionEpisodes.InsideEpisode` | internal/hub/service.go:2340-2366 | Colliding and end events lie in an episode opened by a start event, carry its time, and nothing ended or lost the episode in between. |
| `CollisionEpisodes.DebounceKept` | internal/hub/service.go:2361-2363 | The event before a colliding event announced the same episode at least the debounce earlier. |
| `CollisionEpisodes.NextAnnouncement` | internal/hub/service.go:2355-2366 | After an announcement the next event of a lasting collision comes with the first evaluation after debounce or expiry: colliding with the same start if and only if before the expiry, otherwise a new start. |
| `CollisionEpisodes.EventIff` | internal/hub/service.go:2205-2366 | The event of every evaluation in every run: with an episode whose last announcement has not expired, colliding when touching and due, nothing when not due, an end when not touching; otherwise a start when touching; nothing outside the rectangle. |
| `CollisionEpisodes.OpenIff` | internal/hub/service.go:2205-2248 | What is stored is exactly what the last announcement stored, while every evaluation since then found the pair touching, not due and not expired. |
| `CollisionEpisodes.FirstDueDecides` | internal/hub/service.go:2355-2366 | The first evaluation after the debounce emits colliding if and only if the episode has not expired; with a debounce below the time-to-live it otherwise emits start. |
| `CollisionEpisodes.SparseEvaluationsRestart` | internal/hub/service.go:2234-2241 | With debounce 25 and time-to-live 30, evaluations at 0, 20 and 40 give start, nothing, start. |
| `CollisionEpisodes.DebounceBeyondTtlNeverColliding` | internal/hub/service.go:2231-2236 | In particular a debounce no shorter than the time-to-live suppresses every colliding event. |
| `CollisionEpisodes.RestartMeansLoss` | internal/hub/service.go:2205-2230 | A second start without an end means that the episode expired or the rectangle test dropped it. |
| `CollisionEpisodes.EndsOnlyInCorners` | internal/hub/service.go:2211-2230 | A live episode is over exactly when the radius test fails; it gets an end event exactly when both axes are still within reach, and ends silently exactly outside the rectangle. |
| `CollisionEpisodes.LeavingRectangleIsSilent` | internal/hub/service.go:2211-2214 | A concrete pair that moves out of the rectangle never gets an end event. |
| `CollisionEpisodes.EndCloses` | internal/hub/service.go:2346-2354 | After an end the pair's next event is a start. |
| `CollisionEpisodes.PairKeyUnordered` | internal/hub/service.go:2430-2434 | Two pairs of colon-free ids share a key exactly when they are the same unordered pair. |
| `CollisionEpisodes.CollisionTable.EvaluatePair` | internal/hub/service.go:2205-2248 | One candidate pair makes one step: state stored or deleted, event emitted, other pairs unchanged. |
| `Proximity.ReportedRecentlyConfirmed` | internal/hub/service.go:1285-1322 | In every run the reported zone was itself the candidate of a reading older than neither the exit grace nor the stale time, with only sticky answers since. |
| `Proximity.LeavesAfterDwell` | internal/hub/service.go:1309-1321 | A known, unexpired zone is left only after its minimum dwell since entry, and only for a zone beyond the boundary grace. |
| `Proximity.LeavesIff` | internal/hub/service.go:1285-1322 | A reading of another zone is answered with that zone, not sticky, exactly if the zone held went longer than exit grace or stale time without being named, or its dwell since the last entry is over and the other zone lies beyond the boundary grace; otherwise with the zone held, sticky. |
| `Proximity.NamedZoneReported` | internal/hub/service.go:1292-1310 | A reading with no zone held, or of the zone held, is answered with the zone it names. |
| `Proximity.RejectedIff` | internal/hub/service.go:1286-1297 | A reading is rejected exactly if its confidence is missing or below a positive minimum, or the zone held has lost its position or policy. |
| `Proximity.LastEnteredIff` | internal/hub/service.go:1285-1337 | The dwell counts from the last entry, which no confirmation moves. |
| `Proximity.LastConfirmedIff` | internal/hub/service.go:1304-1310 | The grace counts from the last reading that was answered with the zone it named. |
| `Proximity.StandingIff` | internal/hub/service.go:1285-1337 | The zone held is the one last reported, until the stale time of that answer is over. |
| `Proximity.BoundaryIff` | internal/hub/service.go:3647-3664 | Two zones are within the boundary grace exactly when their distance is at most the radii plus either zone's grace. |
| `Kalman.GainStrict` | internal/hub/kalman_decision.go:218-235 | The gain of an initialised axis lies strictly between zero and one. |
| `Kalman.WeightedMean` | internal/hub/kalman_decision.go:226-233 | An update is the mean of old estimate and measurement, each weighted by the other's variance: the stored covariance grown by the floored process variance, and the floored measurement variance. |
| `Kalman.CovarianceParallel` | internal/hub/kalman_decision.go:226-234 | The new covariance is the parallel combination of the grown covariance and the measurement variance, down to the floor. |
| `Kalman.AdvanceMixes` | internal/hub/kalman_decision.go:145-155 | One measurement mixes each axis with the coordinate and variances of that axis, starts an axis that was not initialised, and drops the vertical axis without a height. |
| `Kalman.GainOptimal` | internal/hub/kalman_decision.go:226-233 | No other weight of the measurement gives a smaller variance than the filter's gain. |
| `Kalman.UpdateBounds` | internal/hub/kalman_decision.go:218-235 | An update stays within any interval that holds the estimate and the measurement, and its covariance between the floor and the measurement variance. |
| `Kalman.XWithinMeasurements` | internal/hub/kalman_decision.go:109-195 | In every run the x estimate lies between the least and greatest x measurement since the track last started anew. |
| `Kalman.YWithinMeasurements` | internal/hub/kalman_decision.go:109-195 | The same for y. |
| `Kalman.VerticalWithinMeasurements` | internal/hub/kalman_decision.go:109-195 | The same for the vertical axis since it last started anew. |
| `Kalman.CovarianceBounds` | internal/hub/kalman_decision.go:218-235 | After every measurement the covariances lie between 1e-6 and that measurement's clamped variance. |
| `Kalman.RunSound` | internal/hub/kalman_decision.go:109-216 | Every stored track is initialised, remembers its last decision and retains at most maxPoints - 1 samples. |
| `Kalman.EmissionsApart` | internal/hub/kalman_decision.go:109-195 | Consecutive emissions are at least the configured interval apart unless the track starts anew at the later one. |
| `Kalman.EmittedIff` | internal/hub/kalman_decision.go:181-187 | A measurement is emitted exactly if there is no throttle, the track starts anew at it, or the last emission of the key lies at least the interval back. |
| `Kalman.StartsAnewIff` | internal/hub/kalman_decision.go:123-139 | A measurement continues the stored track exactly if the one before it has not expired, was in the same coordinate system and is at most the maximal age older; otherwise a new track begins. |
| `Kalman.LastResetIs` | internal/hub/kalman_decision.go:123-139 | Since the last start of a track every measurement continued the one before it. |
| `Kalman.VerticalKeptIff` | internal/hub/kalman_decision.go:148-155 | The vertical axis goes on exactly if the track does and the measurement before had a height. |
| `Kalman.TrimKalmanSamples` | internal/hub/kalman_decision.go:201-216 | The result is a suffix of the samples with at most maxPoints - 1 of them; below that number exactly the stale prefix is gone. |
| `Kalman.ContinueTrack` | internal/hub/kalman_decision.go:109-150 | The track is kept, or started anew after an expiry, a change of coordinate system or a gap. |
| `Kalman.AdvanceTrack` | internal/hub/kalman_decision.go:150-195 | One measurement updates axes, samples and emission time, and is emitted unless throttled. |
| `Kalman.KalmanStage.NormalizeTrackable` | internal/hub/kalman_decision.go:109-195 | The stage makes one step of the track's run, leaves other tracks alone and reports the stored estimate. |
| `CoalescingKeys.SameKeyIff` | internal/hub/events.go:433-445 | Two keyed events share a key exactly when kind and scope agree and their provider and identifier are equal or differ by a shifted separator. |
| `CoalescingKeys.KeyedIff` | internal/hub/events.go:433-445 | Exactly location and motion events with their own envelope have a key. |
| `CoalescingKeys.StreamsCoalesce` | internal/hub/events.go:433-445 | Two concrete location streams of different providers share a key. |
| `EventBus.DeliveryIsItsPieces` | internal/hub/events.go:293-324 | The separately locked pieces of a delivery, uninterrupted, do what deliver does. |
| `EventFates.DeliverDecides` | internal/hub/events.go:293-341 | From the state before the call alone: an unkeyed event is dropped exactly if the channel is full, a keyed one exactly if its key is not pending, 1024 keys are, and there is a backlog or no room; every other event goes to the end of the channel, to its key's place, or to the end of the backlog. |
| `EventFates.DropIff` | internal/hub/events.go:293-341 | In every interleaving of the locked pieces a step counts a drop exactly if it is an unkeyed event that finds the channel full or a queueing one that finds its key absent and the backlog full. |
| `EventFates.DropMeansNoPlace` | internal/hub/events.go:293-341 | A keyed event that is dropped had moreover been held back by a backlog or a full channel. |
| `EventFates.FlushIsItsPieces` | internal/hub/events.go:370-418 | The flusher's pieces, uninterrupted, move the oldest pending event to the channel if there is room and otherwise change nothing. |
| `EventBus.RunSound` | internal/hub/events.go:293-418 | For every interleaving of the locked pieces of any number of emitters, the flusher and the consumer, the order lists exactly the pending keys, each once, at most 1024, and the channel holds what was sent and not yet received. |
| `EventBus.DropsCounted` | internal/hub/events.go:252-276 | Every event given to the subscriber is, as often as given, accepted, counted as a drop or still under way. |
| `KeyMoves.MoveKeepsOrder` | internal/hub/events.go:293-418 | Every move of a key's view that does not overtake keeps its line a subsequence of the accepted events. |
| `KeyMoves.OvertakingBreaks` | internal/hub/events.go:308-317 | A direct send of a new event while another is on its way breaks the order. |
| `KeyMoves.MoveLatestIff` | internal/hub/events.go:293-418 | A move keeps the latest value at the end of the line exactly if it neither overtakes, nor takes away, nor strands it. |
| `EventOrder.OrderedIff` | internal/hub/events.go:293-418 | With any number of emitters and distinct events of a key, what reached the channel for it followed by what is on its way is a subsequence of the accepted events throughout a run exactly when no event of the key is sent directly while an earlier one is on its way. |
| `EventOrder.RunOrdered` | internal/hub/events.go:293-418 | With one emitter of the key, order is kept for every interleaving, even of equal events. |
| `EventOrder.LatestKeptIff` | internal/hub/events.go:293-418 | With any number of emitters and distinct events of a key, its line ends in the latest accepted event throughout a run exactly when no direct send overtakes, no clear or remove takes away a pending value other than the one in flight, and no send is given up after its value was cleared. |
| `EventOrder.OneEmitterKeepsLatestIff` | internal/hub/events.go:370-418 | With one emitter of the key, the latest value is kept throughout exactly when no remove finds a newer value than was peeked. |
| `EventOrder.AtomicFlushKeepsLatest` | internal/hub/events.go:370-385 | With one emitter that begins no delivery while the flusher holds an event of the key, the latest value is kept. |
| `EventRaces.LatestLost` | internal/hub/events.go:372-380 | A concrete run loses an accepted event without counting a drop. |
| `EventRaces.TwoEmittersLose` | internal/hub/events.go:343-356 | A concrete race of two emitters of one key loses an accepted event without counting a drop. |
| `EventRaces.TwoEmittersReorder` | internal/hub/events.go:293-324 | A concrete race of two emitters of one key accepts b before a and sends a before b. |
| `EventSubscriber.Subscriber.Deliver` | internal/hub/events.go:293-324 | An unkeyed event is accepted exactly if the channel has room, a keyed one exactly if its key is pending or fewer than 1024 are; an accepted event goes to the end of the channel, to its key's place or to the end of the backlog, and a refused one changes nothing. |
| `EventSubscriber.Subscriber.EnqueuePending` | internal/hub/events.go:326-341 | A held event replaces its key's value, or joins the end of the order unless the backlog is full. |
| `EventSubscriber.Subscriber.RemovePending` | internal/hub/events.go:401-418 | The searching loop removes the key from map and order and nothing else. |
| `EventSubscriber.Subscriber.ClearPending` | internal/hub/events.go:343-356 | The same, only if the key is pending. |
| `EventSubscriber.Subscriber.PeekPending` | internal/hub/events.go:387-399 | The oldest pending key with its value, if there is any. |
| `EventSubscriber.Subscriber.FlushOne` | internal/hub/events.go:370-385 | One turn moves the head of the backlog to the channel, or changes nothing if there is no head or no room. |
| `EventSubscriber.Subscriber.FlushPending` | internal/hub/events.go:370-385 | The loop moves a prefix of the backlog in order and stops only when the backlog is empty or the channel full. |
| `DecisionQueue.CapacityBounds` | internal/hub/derived_processor.go:95-105 | Total shard capacity lies between the buffer and the buffer plus one slot less than the shards. |
| `DecisionQueue.ShardCount` | internal/hub/derived_processor.go:92-100 | The number of shards is the one between one and the buffer that is nearest to the workers. |
| `DecisionQueue.RunSound` | internal/hub/derived_processor.go:138-246 | For every interleaving, queues and batches stay within bounds and each shard's processed, batched and queued work is a subsequence of the submissions routed to it. |
| `DecisionQueue.StreamInOrder` | internal/hub/derived_processor.go:165-246 | The work processed for a (provider, source) stream is a subsequence of its submissions, and no other shard ever holds any of it. |
| `DecisionQueue.Conservation` | internal/hub/derived_processor.go:176-246 | Every piece of work is processed, batched, queued or dropped exactly as often as it was submitted. |
| `DecisionQueue.DropIff` | internal/hub/derived_processor.go:176-206 | In every run work is dropped exactly when it is submitted to the shard of its stream while that shard's queue is full. |
| `DecisionQueue.Processor.Submit` | internal/hub/derived_processor.go:176-206 | Work joins the queue if there is room and is otherwise counted as dropped. |
| `DecisionQueue.Processor.DequeueBatch` | internal/hub/derived_processor.go:232-246 | The batch is the longest prefix of the waiting work up to 64, as repeated receives give it. |
| `MetadataCache.Cache.UpsertZone` | internal/hub/metadata_cache.go:313-333 | The zone is replaced or appended in the list, lookups by id still equal a scan, and a complete foreign index stays complete if and only if foreign ids stay unique. |
| `MetadataCache.Cache.DeleteZone` | internal/hub/metadata_cache.go:335-352 | The same after the zone is removed. |
| `MetadataCache.Cache.UpsertTrackable` | internal/hub/metadata_cache.go:380-400 | Lookups by id and provider still equal the list, in which the trackable is replaced or appended. |
| `MetadataCache.Cache.DeleteTrackable` | internal/hub/metadata_cache.go:402-419 | The same after the trackable is removed; no provider keeps an empty list. |
| `MetadataCache.Cache.Rebuild` | internal/hub/metadata_cache.go:186-236 | Indexes rebuilt from the lists equal the ones kept by changes, provider lists up to order; the foreign index gives the last zone of the list for every id, and with unique ids equals the kept one if and only if that is complete. |
| `MetadataCache.Cache.ZoneBySource` | internal/hub/metadata_cache.go:275-282 | A found zone is one of the list and carries the id or foreign id, an id match wins, and nothing is missed by id, nor by foreign id while the index is complete. |
| `MetadataCache.CompleteThroughoutIff` | internal/hub/metadata_cache.go:313-352 | Over every run of upserts and deletes from the empty cache the foreign index is complete at every step exactly when foreign ids are unique at every step. |
| `MetadataCache.ForeignLookupIff` | internal/hub/metadata_cache.go:313-352 | After every run a foreign id finds a zone exactly when that zone made the last claim to the id and was not changed since. |
| `MetadataCache.Cache.TrackablesByProvider` | internal/hub/metadata_cache.go:301-305 | The provider's list equals a scan up to order exactly when no trackable repeats the provider. |
| `MetadataCache.ProviderLookupIsScanIff` | internal/hub/service.go:1135-1146 | The index of a provider equals the scan that counts each trackable once if and only if no trackable repeats the provider. |
| `MetadataCache.SharedForeignIdForgotten` | internal/hub/metadata_cache.go:335-352 | With a shared foreign id, deleting one zone hides the other from the index. |
| `MetadataCache.DiffSignatures` | internal/hub/metadata_cache.go:466-483 | Each changed id is listed once with what happened to it, and patching the old signatures yields the new ones. |
| `MetadataCache.PatchGivesNext` | internal/hub/metadata_cache.go:466-483 | Any listing of the changes, in any order, turns the old signatures into the new ones. |
| `ConvexHull.PopToLeftTurn` | connectors/gtfs/gtfs_support.py:469-470 | Popping keeps a convex chain and stops at a strict left turn with every later point left of the edge to come. |
| `ConvexHull.HalfHull` | connectors/gtfs/gtfs_support.py:467-477 | One scan yields a strictly left-turning chain from first to last point with every point on or left of each edge. |
| `ConvexHull.Hull` | connectors/gtfs/gtfs_support.py:460-479 | The hull starts at the least point, is made of input points, encloses all of them, and has at least three vertices exactly when the input is not collinear; then all turns are strictly left and no vertex occurs twice. Of collinear points it keeps the least and the greatest. |
| `Replay.SyntheticBelongs` | connectors/replay/replay_support.py:206-223 | An interpolated location keeps the object's key and lies between its neighbours in place and order. |
| `Replay.SyntheticProportional` | connectors/replay/replay_support.py:206-223 | Place, speed and course of an interpolated location are where a steady motion between its neighbours would be at its time. |
| `Replay.SameObjectIff` | connectors/replay/replay_support.py:241-251 | Two locations are of one object exactly if they share the first trackable, or name none and share the source, or name neither and share provider and point. |
| `Replay.SyntheticMotion` | connectors/replay/replay_support.py:206-223 | Speed and course lie between the neighbours' when both have them and are otherwise the later neighbour's, as are all other fields. |
| `Replay.FillGap` | connectors/replay/replay_support.py:141-157 | The step loop with its early break yields one location for every multiple of the interval strictly inside the gap. |
| `Replay.FillSpaced` | connectors/replay/replay_support.py:141-157 | A filling starts at the given offset, goes on one interval at a time and ends exactly where the next step would reach the later item. |
| `Replay.InterpolateLog` | connectors/replay/replay_support.py:121-171 | The loop over a dictionary of previous items equals the expansion by each object's latest item, errors included. |
| `Replay.PredictedIsBuilt` | connectors/replay/replay_support.py:174-203 | The preview's sum of quotients is the number of synthetic locations in the list really built. |
| `Replay.PreviewSchedule` | connectors/replay/replay_support.py:174-203 | The preview's counts and span are those of the expanded list whenever that exists, and it fails exactly for the named inputs. |
| `Replay.ExpandsIff` | connectors/replay/replay_support.py:121-171 | Expansion succeeds exactly when every item has a key and every gap to fill has points at both ends. |
| `Replay.PreviewTooOptimistic` | connectors/replay/replay_support.py:174-203 | A concrete log has a preview but no expansion. |
| `Replay.OriginalsKept` | connectors/replay/replay_support.py:121-171 | Without its synthetic locations the expanded list is the log. |
| `Replay.ObjectsAdvance` | connectors/replay/replay_support.py:121-171 | On a time-sorted log each object's timestamps never decrease and step by at most one interval. |
| `Replay.SortedIff` | connectors/replay/replay_support.py:121-171 | The whole list is in time order exactly when no filling starts before an item already listed. |
| `Replay.OutOfOrder` | connectors/replay/replay_support.py:121-171 | A concrete time-sorted log expands to a list that goes back in time. |
| `Replay.BuildSchedule` | connectors/replay/replay_support.py:76-103 | Every expanded location is scheduled, its distance from the first one shrunk by the acceleration and counted from the replay start; the error cases are the code's. |
| `Replay.PlacedInOrder` | connectors/replay/replay_support.py:91-93 | Scheduled locations are in the order of their original times. |
| `RpcCollect.DecisiveSettles` | internal/rpc/bridge.go:589-608 | The first decisive response settles the answer whatever arrives later. |
| `RpcCollect.TimedOutIff` | internal/rpc/bridge.go:561-588 | A request times out exactly when nothing arrived and single-answer aggregation was asked for. |
| `RpcCollect.SingleIsWanted` | internal/rpc/bridge.go:570-588 | A returned response arrived, and is of the unwanted kind only if none of the wanted kind came. |
| `RpcCollect.SingleIsFirst` | internal/rpc/bridge.go:570-608 | A returned single response is the first of its kind to arrive. |
| `RpcCollect.AllListed` | internal/rpc/bridge.go:563-569 | The list of responses holds every arrival that is not empty as often as it came, in the order of arrival, and no other. |
| `RpcCollect.CollectResponses` | internal/rpc/bridge.go:547-611 | The receiving loop equals the declarative answer for all arrivals, stops at the first decisive one, and never returns the no-success error. |

## Left out

- HTTP, MQTT and WebSocket transports, Postgres, configuration, telemetry, authentication: plumbing around the core.
- Floating point: coordinates, distances and filter values are exact reals; distances are compared on squares; replay time is counted in ticks, "next below" being one tick less.
- The R-tree library: taken as a closed-box query that rejects rectangles built with a side that is not positive.
- SHA-256 and FNV: a collision-free function and an arbitrary function of the stream.
- The fallback branches for a position that cannot be encoded (internal/hub/service.go:3130-3155): raw JSON coordinates never fail to encode.
- Dynamic values outside the listed Go types: represented by the JSON text that is hashed for them. Timestamps outside the nanosecond range are not modelled.
- Trimming of identifiers and reference-system names: strings are held already trimmed.
- Fence events that cannot be built: the call then stops halfway, which is not modelled. A call is one atomic step with one clock reading, although workers of different shards may interleave calls for one trackable.
- Square roots: the outside distance of a fence is an input of the fence rules, tied to the geometry by its square.
- Web Mercator and WGS84 distances: the projected position and the distances in metres are inputs of the collision grid.
- FenceIndex.ContainedInBox: stated for balanced rings, since `RingGeometry.BoxSoundIffBalanced` shows it to fail for all others.
- FencePipeline.PublishLocation: takes fence ids to be unique.
- Overlap of collision geometries: only the radius test is modelled.
- The choice of a proximity candidate and the computation of Kalman variances: inputs.
- Fences and providers in the metadata cache: the same id table as zones without a secondary index of their own; fence indexes are rebuilt whole.
- EventOrder.LatestKeptIff: takes the events of the key to be distinct; equal ones are covered with one emitter.
- EventOrder.OrderedIff: the same; that order is kept while nothing overtakes needs no distinctness (`EventOrder.NoOvertakingKeepsOrder`).
- Unsubscribing, closing and the wake-ups of the flusher: only safety is stated.
- DecisionQueue.Conservation: work counts as processed when its batch is handed over, whether or not the handler fails.
- Outbound WebSocket coalescing, `close_ring`, centroids, coordinate transforms and the demo connectors: separate from the pipeline, or a few lines whose contracts would repeat them.
