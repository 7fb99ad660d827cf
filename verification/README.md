# Verified model of the geodata services

A Dafny model of the parts of the repository in which order, concurrency or arithmetic
decide whether the result is right, with proofs about every input, run and interleaving.

- **Vision change detection.** `Boxes`, `ChangeBoxes`, `Ordering`, `Clustering`,
  `ConflictFlags`, `Reconciliation` and `ReconciliationFacts` treat the reconciliation of
  overlapping proposals: geometry, matching, the greedy complete-link loop and the conflict
  flags. `VisionChange` maps model answers to rows, `WindowGrid` cuts the grid,
  `Inference`, `InferenceSteps`, `InferenceEnd` and `InferenceRun` are the bounded concurrent
  loop, `RetryGate` the shared cooldown and cancel flag, and `ChangeDetect` puts grid,
  coverage and inference together.
- **Job queue.** `Jobs` is the protocol as a machine, `JobTable` its statements.
- **Workspaces.** `Workspaces` is the protocol of concurrent transactions, `Resolving` the
  call that finds the active one, `WorkspaceStore` the operations on tables and schemas.
- **Tokens and maintenance.** `OAuth` with `TokenEndpoint`, `Control` with `Controller`.
- **Text and streams.** `Text` and `Chunks`, `EventStream`.
- **Allocators.** `Decimal` and `ExportNames`, `SiteBudgets`.

A protocol is a state with a total step function: a step that is not possible changes
nothing, a run is any sequence of steps, and a theorem over runs is a theorem over all
interleavings. The classes hold the fields that the code mutates, and each method's contract
equates the new state with a step, so that what is proved of runs holds of them. Where the
code leaves something to a scheduler, the methods choose without a rule, and their contracts
hold for every choice. Random names, clocks, network replies and decoders are parameters.

Verify with `dafny verify dfyconfig.toml`.

## Results

- The candidates do not depend on the schedule: `ReconciliationFacts.OrderIndependent` and
  `InferenceRun.Infer`; what a candidate is: `ReconciliationFacts.Partition`, `CandidateFacts`,
  `JoiningExact`, `AnswerByRule` and `ConflictsExact`; and what they hold of the model's answers:
  `InferenceEnd.ReportsEvident` and `EvidentReported`.
- Small objects are seen whole: `WindowGrid.SeenWhole`, `ChangeDetect.Detect`.
- The gate: `RetryGate.DelayHonoured`, `ThreeAttempts`, `CancelExact`, `ThreadsRunTheLoop`,
  `ReceiveExact`, `FlagExactly`; when a run is cancelled: `InferenceEnd.CancelledExactly`.
- Jobs: `Jobs.ClaimBound`, `Absorbing`, `WaitBound`, `RowsExact`, `CancelReplyMeans`, `MisleadExactly`.
- Workspaces: `Workspaces.AlwaysConsistent`, `SweepHarmless`, `SweepSafeExactly`,
  `BeginFullExactly`, `Resolving.StompExactly`.
- Tokens and maintenance: `OAuth.OneHolder`, `RedeemedOnce`, `GrantOrigin`, `TokenOrigin`, `DeadForGood`,
  `Control.IssuedOnce`, `NeverRetried`, `OneUnresolved`.
- Text, streams and allocators: `Chunks.EveryCharacterKept`, `ChunksAreStretches`, `DefaultChunkCount`,
  `EventStream.ReadAnswer`, `LineEndsIrrelevant`, `CuttingIrrelevant`, `WholeAnswer`, `ExportNames.NameLayers`,
  `SiteBudgets.Divide`.

Some of them are about places where the code does less than its comments or its documentation
say. Each is an exact condition, with a run that shows it:

- After a cancel, a thread that has already looked at the flag can still start one call
  (`RetryGate.CancelExact`, `RetryGate.LateStart`).
- A cancel request can be told that a job has finished although it is queued again, exactly
  when its first try is ahead or under way (`Jobs.MisleadExactly`, `Jobs.MisleadingReply`).
- Resolving the active workspace can undo a concurrent switch, exactly when the key has no
  active workspace as the call starts, because the lock taken for the second look is released
  before the default workspace is activated (`Resolving.StompExactly`, `Resolving.UndoneFromEmpty`).
- The workspace sweep can drop a live schema, exactly when an orphan exists as it lists
  (`Workspaces.SweepSafeExactly`, `Workspaces.OrphanHurts`); from a clean start it cannot.
- A new workspace can begin with the tables of an earlier schema, exactly when an orphan exists
  as it is created (`Workspaces.BeginFullExactly`, `Workspaces.OrphanAdopted`).

## Model

| member | source | states |
|---|---|---|
| `Boxes.Area` | services/worker/connectors/change_boxes.py:20-21 | a box of positive extent has positive area, so nothing below divides by zero |
| `Boxes.AreaSplits` | services/worker/connectors/change_boxes.py:20-21 | the areas of the two parts of a box cut at a line add up to its area |
| `Boxes.Overlap` | services/worker/connectors/change_boxes.py:24-28 | IoU and containment are defined for all boxes and satisfy 0 <= IoU <= containment <= 1 |
| `Boxes.IntersectionBounds` | services/worker/connectors/change_boxes.py:25-26 | the intersection is symmetric, at most either area, and equals one only when that box lies inside the other |
| `Boxes.IntersectionLargest` | services/worker/connectors/change_boxes.py:25-26 | the intersection is the area of the largest box inside both, and 0 exactly when there is none |
| `Boxes.OverlapSymmetric` | services/worker/connectors/change_boxes.py:24-28 | both overlap measures are symmetric |
| `Boxes.OverlapExact` | services/worker/connectors/change_boxes.py:24-28 | IoU times the union, and containment times the smaller area, are the intersection |
| `Boxes.OverlapExtremes` | services/worker/connectors/change_boxes.py:24-28 | IoU is 1 exactly for equal boxes; containment is 1 exactly for nested ones |
| `Boxes.EqualAreasAgree` | services/worker/connectors/change_boxes.py:53-59 | equal areas with containment of at least 0.90 force IoU of at least 0.60 |
| `ChangeBoxes.MatchesSymmetric` | services/worker/connectors/change_boxes.py:45-59 | matching is symmetric although its choice of the smaller box is not |
| `ChangeBoxes.MatchesExactly` | services/worker/connectors/change_boxes.py:45-59 | two observations match exactly when they come from different tiles with one concept and one kind of change (the synonyms spelled out) and agree on IoU of 0.60, or on containment of 0.90 with the strictly smaller box cut off at an edge |
| `ChangeBoxes.OpposingSymmetric` | services/worker/connectors/change_boxes.py:105-111 | opposition is symmetric |
| `ChangeBoxes.OpposingExactly` | services/worker/connectors/change_boxes.py:99-111 | two observations oppose exactly when they come from different tiles with one concept, one of an appearing and one of a disappearing type, with IoU of at least 0.60 or containment of at least 0.90 |
| `ChangeBoxes.OpposingNeverMatch` | services/worker/connectors/change_boxes.py:45-59 | opposing observations never match, so they are never merged with each other |
| `ChangeBoxes.KeyInjective` | services/worker/connectors/change_boxes.py:66-67 | sort ties occur only between equal rows |
| `ChangeBoxes.CellsOrder` | services/worker/connectors/change_boxes.py:88 | rows compare field by field, as tuples do |
| `ChangeBoxes.LastWindowWins` | services/worker/connectors/change_boxes.py:63 | of the windows with one id the last is looked up |
| `ChangeBoxes.RankedContents` | services/worker/connectors/change_boxes.py:66-67 | sorting by the key loses no row and orders the keys |
| `ChangeBoxes.RankedUnique` | services/worker/connectors/change_boxes.py:66-67 | the processing order, read as rows, is the same for every arrangement of the same rows |
| `Ordering.TotalOrder` | services/worker/connectors/change_boxes.py:66-67 | tuple comparison is asymmetric and total: incomparable tuples are equal |
| `Ordering.Transitive` | services/worker/connectors/change_boxes.py:66-67 | not-greater is transitive on tuples of flags, numbers and texts |
| `Ordering.TextLessExact` | services/worker/connectors/change_boxes.py:66-67 | texts compare at the first code point at which they differ, a proper prefix being less |
| `Ordering.SortIndicesSorted` | services/worker/connectors/change_boxes.py:66-67 | the stable index sort puts the keys in order |
| `Ordering.SortIndicesContents` | services/worker/connectors/change_boxes.py:66-67 | the stable index sort is a permutation of the indices |
| `Ordering.SortedUnique` | services/worker/connectors/change_boxes.py:66-67 | a sorted sequence of keys is determined by its multiset |
| `Clustering.TraceIsGreedy` | services/worker/connectors/change_boxes.py:68-87 | a loop that takes one seed per round ends in the state the recursive definition gives |
| `Clustering.MatchesUpToExact` | services/worker/connectors/change_boxes.py:73-74 | the matches of a seed are exactly the unassigned other observations linked to it, in order |
| `Clustering.SoleMatch` | services/worker/connectors/change_boxes.py:77-82 | a tile list of length one means that no other match of the seed lies in that tile |
| `Clustering.GrowLinks` | services/worker/connectors/change_boxes.py:80-84 | every two members of a group are linked in both directions and come from different tiles |
| `Clustering.GreedyFacts` | services/worker/connectors/change_boxes.py:68-87 | after n seeds each of the first n ranks is taken exactly once and every group is complete-link, for any symmetric cross-tile relation |
| `Clustering.GreedyPartition` | services/worker/connectors/change_boxes.py:68-87 | the groups partition the ranks |
| `Clustering.SeedDecides` | services/worker/connectors/change_boxes.py:72-84 | at the moment a seed is taken, an unassigned match of it joins if and only if no other such match shares its tile and it is linked to every member of lower rank |
| `Clustering.GreedyObeys` | services/worker/connectors/change_boxes.py:68-87 | the groups of the loop obey a rule that does not mention the loop: leaders in rank order, every rank in exactly one group, and a rank is a member exactly when it leads or is in no group with an earlier leader, is linked to the leader, is the only such rank in its tile, and is linked to every member before it |
| `Clustering.GroupingUnique` | services/worker/connectors/change_boxes.py:68-87 | there is exactly one grouping that obeys this rule, that of the loop |
| `ConflictFlags.Candidate.constructor` | services/worker/connectors/change_boxes.py:11-17 | a new candidate asks for no review and lists no conflict |
| `ConflictFlags.Candidate.Flag` | services/worker/connectors/change_boxes.py:112-115 | records one opposing observation at the end of the list unless it is there already, asks for a review, and changes nothing else |
| `ConflictFlags.FlagConflicts` | services/worker/connectors/change_boxes.py:93-115 | the nested loops over candidate objects compute the flagging function of their values, for any relation |
| `ConflictFlags.FlagEach` | services/worker/connectors/change_boxes.py:101-115 | the outer loop visits every pair of candidates in order |
| `ConflictFlags.FlagTwo` | services/worker/connectors/change_boxes.py:103-115 | the inner loops visit every pair of observations of two candidates |
| `ConflictFlags.FlagOne` | services/worker/connectors/change_boxes.py:112-115 | one opposing pair is recorded on both sides |
| `ConflictFlags.VisitsExact` | services/worker/connectors/change_boxes.py:101-104 | the visits are exactly the pairs of observations of two different candidates |
| `ConflictFlags.FlagsExact` | services/worker/connectors/change_boxes.py:93-115 | an observation is listed at a candidate exactly when another candidate holds it and it opposes one of the candidate's own; review is asked for exactly when something is listed, nothing twice, and no evidence changes |
| `Reconciliation.Reconcile` | services/worker/connectors/change_boxes.py:62-90 | the method returns distinct objects whose values are the specified answer for the rows and windows |
| `Reconciliation.SortByRow` | services/worker/connectors/change_boxes.py:88 | the candidate objects are put in the order of their rows, each kept once |
| `Reconciliation.Merge` | services/worker/connectors/change_boxes.py:68-87 | the seed loop on assigned indices yields the views of the greedy groups |
| `Reconciliation.MergeSeed` | services/worker/connectors/change_boxes.py:69-87 | one seed: skipped when assigned, otherwise one more candidate and its members assigned; who they are is the rule of Clustering.GreedyObeys |
| `Reconciliation.JoinMatches` | services/worker/connectors/change_boxes.py:77-84 | the members taken are those of the specified growth |
| `Reconciliation.FindMatches` | services/worker/connectors/change_boxes.py:73-74 | the list of matches on indices is the specified one on ranks |
| `Reconciliation.GroupByTile` | services/worker/connectors/change_boxes.py:77-79 | the dictionary holds for every tile the matches in that tile, in order |
| `ReconciliationFacts.OrderIndependent` | services/worker/connectors/change_boxes.py:62-90 | equal multisets of rows give the identical candidate list, duplicates included |
| `ReconciliationFacts.OtherWindowsIrrelevant` | services/worker/connectors/change_boxes.py:63-64 | only the windows of the rows matter |
| `ReconciliationFacts.Partition` | services/worker/connectors/change_boxes.py:62-90 | over all candidates the observations are, as a multiset, exactly the observations of the input rows |
| `ReconciliationFacts.CandidateFacts` | services/worker/connectors/change_boxes.py:62-90 | members come from different tiles, share their concept and kind of change and agree in their boxes, pairwise; the candidate's row is a proposed one, is observed first, and precedes every member (unclipped first, then larger); the merge method says whether there is one member or more |
| `ReconciliationFacts.JoiningExact` | services/worker/connectors/change_boxes.py:72-84 | the joining rule of the answer, as an equivalence: besides its leader a group holds exactly the observations in no group with an earlier leader that match the leader, are the only such match in their tile, and match every member before them |
| `ReconciliationFacts.AnswerByRule` | services/worker/connectors/change_boxes.py:68-90 | the candidates hold exactly the groups of any grouping that obeys the rule, so the rule determines the answer |
| `ReconciliationFacts.MatchingBecomeOne` | services/worker/connectors/change_boxes.py:68-90 | sightings that all match each other, two for example, become one candidate that holds them all |
| `ReconciliationFacts.RankPrecedes` | services/worker/connectors/change_boxes.py:66-67 | the processing order: unclipped before clipped, then larger before smaller, then by row |
| `ReconciliationFacts.CandidatesSorted` | services/worker/connectors/change_boxes.py:88 | the candidates come in the order of their rows |
| `ReconciliationFacts.ConflictsExact` | services/worker/connectors/change_boxes.py:93-115 | a candidate lists exactly the raw observations that contradict one of its own (different tiles, one concept, one appearing and one disappearing type, IoU of 0.60 or containment of 0.90), each once, and asks for a review exactly when it lists one, however the clusters were formed |
| `VisionChange.ParseExact` | services/worker/connectors/vision_change.py:77-91 | an entry is accepted as a change exactly when it writes out that change, field by field, and the change has a requested concept, an allowed type and label, texts that are not blank, and a proper box |
| `VisionChange.ParseAllOrNothing` | services/worker/connectors/vision_change.py:70-94 | whatever other fields the answer has, one malformed entry rejects the whole tile; otherwise every entry is kept in order |
| `VisionChange.ParseNeedsList` | services/worker/connectors/vision_change.py:73-76 | anything but an object with a list of changes is refused |
| `VisionChange.ToBoxInside` | services/worker/connectors/vision_change.py:106-116 | every accepted box maps to a box of positive area inside its window |
| `VisionChange.RoundTrip` | services/worker/connectors/vision_change.py:106-116 | the mapping to projected coordinates is invertible |
| `VisionChange.ClippedInImage` | services/worker/connectors/change_boxes.py:31-39 | for a mapped box an edge is listed as clipped exactly when the box comes within the margin of that side of its image, the image's top being north, and nothing else is listed |
| `VisionChange.CandidateRows` | services/worker/connectors/vision_change.py:106-120 | one row per change, in order, with the mapped box |
| `VisionChange.RowExact` | services/worker/connectors/vision_change.py:106-120 | a row repeats its change field by field, names its window and the class of its type, and gives its box back |
| `WindowGrid.Build` | services/worker/connectors/change_detect.py:209-227 | for any box, positive resolution and overlap below the tile size the grid terminates with the windows of the two axes, row by row: each a square of tile size times resolution, placed by its row and column, with distinct ids |
| `WindowGrid.GridLies` | services/worker/connectors/change_detect.py:221-227 | window r * columns + c has the id of row r and column c, lies c strides east and r strides south of the top left corner, and is exactly one tile wide and high |
| `WindowGrid.Eastings` | services/worker/connectors/change_detect.py:215-217 | the west edges start at the box, advance by one stride and stop at the first window that reaches the east |
| `WindowGrid.Northings` | services/worker/connectors/change_detect.py:218-220 | the same for the north edges, downwards |
| `WindowGrid.Cells` | services/worker/connectors/change_detect.py:221-227 | the windows are row-major over the two axes |
| `WindowGrid.AxisUnique` | services/worker/connectors/change_detect.py:215-220 | the stride rule determines the edges |
| `WindowGrid.AxisContains` | services/worker/connectors/change_detect.py:215-220 | an interval no longer than the overlap lies within one window of the axis |
| `WindowGrid.SeenWhole` | services/worker/connectors/change_detect.py:209-227 | any rectangle in the box with sides at most the overlap lies wholly inside a single window; degenerate rectangles give plain coverage |
| `WindowGrid.TileIdInjective` | services/worker/connectors/change_detect.py:224 | ids name row and column, also beyond two digits |
| `WindowGrid.GridDistinct` | services/worker/connectors/change_detect.py:221-227 | no two windows share an id |
| `WindowGrid.CoveredBy` | services/worker/connectors/change_detect.py:251-257 | a window is covered if and only if some item touches it |
| `WindowGrid.CoveredExactly` | services/worker/connectors/change_detect.py:251-257 | a window is covered exactly when some point inside it lies in an item |
| `WindowGrid.Coverage` | services/worker/connectors/change_detect.py:830-837 | each status is missing_a exactly when the first vintage does not cover the window, missing_b exactly when only the first does, and open exactly when both do |
| `Decimal.DigitsInjective` | services/worker/exporter.py:187 | different numbers have different numerals |
| `Decimal.Pad2Injective` | services/worker/connectors/change_detect.py:224 | different numbers stay different when padded to two digits |
| `InferenceRun.Infer` | services/worker/connectors/vision_change.py:184-256 | for every schedule: at the end no call is out, each window is submitted and collected at most once, never more than the concurrency are out; unless the caller interrupts, the run ends cancelled exactly when an asked window has an answer that stops all; every window ends with the status that coverage, its two readings in order and its answer decide (read error, no imagery, analyzed, failed and cancelled told apart one by one), or as cancelled if a cancel left it open; an error is raised exactly when nothing was analyzed and something failed, and always when no open window could be read and some read failed; otherwise the candidates are the function Expected of plan and statuses, failures and counters are listed exactly, and complete holds exactly when all windows are analyzed |
| `InferenceEnd.CancelledExactly` | services/worker/connectors/vision_change.py:216-237 | unless the caller interrupts, a run ends cancelled exactly when some window that is asked about has an answer that stops all |
| `InferenceRun.ReadPair` | services/worker/connectors/change_detect.py:460-478 | a read error at the first vintage, or at the second after a first image, is an error; missing imagery is missing_a at the first and missing_b at the second |
| `InferenceRun.Run.constructor` | services/worker/connectors/vision_change.py:184-194 | a run starts with nothing read, pending or collected |
| `InferenceRun.Run.NextPair` | services/worker/connectors/change_detect.py:456-479 | settles unreadable windows on the way and stops at the next window with two images |
| `InferenceRun.Run.Pass` | services/worker/connectors/change_detect.py:458-478 | a window without a call gets the status that is already decided |
| `InferenceRun.Run.Submit` | services/worker/connectors/vision_change.py:226-227 | adds one pending call, within the bound |
| `InferenceRun.Run.Drop` | services/worker/connectors/vision_change.py:222-225 | a window met after a cancel is recorded as cancelled |
| `InferenceRun.Run.CollectOne` | services/worker/connectors/vision_change.py:198-214 | moves one finished call from pending to its status, rows, failure and counters |
| `InferenceRun.Run.Collect` | services/worker/connectors/vision_change.py:196-214 | collects exactly the finished calls, in any order |
| `InferenceRun.Run.Offer` | services/worker/connectors/vision_change.py:219-227 | makes room before submitting, and stops on a cancel |
| `InferenceRun.Run.Process` | services/worker/connectors/vision_change.py:216-229 | ends with no pending call and every window read unless cancelled |
| `InferenceRun.SweepOpen` | services/worker/connectors/vision_change.py:233-237 | open statuses become cancelled and are recorded as failures; nothing else changes |
| `Inference.GridRowsSettle` | services/worker/connectors/vision_change.py:213-214 | settling one window adds exactly its own rows to the total over the grid |
| `Inference.TotalsCollect` | services/worker/connectors/vision_change.py:201-202 | collecting one call adds exactly its attempts and at most one request |
| `Inference.LogMore` | services/worker/connectors/vision_change.py:196-229 | one more submission or collection keeps the log duplicate-free and the number of calls out within the limit at every moment |
| `InferenceSteps.PassGood` | services/worker/connectors/change_detect.py:456-479 | passing a window keeps the run invariant |
| `InferenceSteps.SubmitGood` | services/worker/connectors/vision_change.py:226-227 | submitting keeps the run invariant, the bound included |
| `InferenceSteps.DropGood` | services/worker/connectors/vision_change.py:222-225 | dropping on a cancel keeps the run invariant |
| `InferenceSteps.CollectGood` | services/worker/connectors/vision_change.py:198-214 | collecting keeps the run invariant |
| `InferenceEnd.EveryWindowSettled` | services/worker/connectors/vision_change.py:228-237 | no window ends without a status, and an analyzed one was asked about and answered |
| `InferenceEnd.Undisturbed` | services/worker/connectors/vision_change.py:216-237 | without a cancel, statuses and collected calls do not depend on the schedule |
| `InferenceEnd.EndsDecided` | services/worker/connectors/change_detect.py:456-479 | each window ends as coverage, its readings and its answer decide, told apart status by status, or as cancelled when a cancel left it open |
| `InferenceEnd.UnreadableFails` | services/worker/connectors/vision_change.py:238-241 | when no open window has two readable images and some read failed, nothing is analyzed and the run is an error that names no reason |
| `InferenceEnd.FailuresAreListed` | services/worker/connectors/vision_change.py:203-211 | a failure is listed exactly for a call without changes, with its reason, and for a window cancelled without a call |
| `Inference.WindowRowsExact` | services/worker/connectors/vision_change.py:213-214 | the gathered rows of a window are one for each change of its answer, in order, if it was analyzed, and none otherwise |
| `Inference.RequestsExact` | services/worker/connectors/vision_change.py:202 | requests count the collected calls with at least one attempt |
| `InferenceEnd.ReportsEvident` | services/worker/connectors/vision_change.py:213-242 | every change that the model reported of an analyzed window is held by some candidate, as an observation that repeats it field by field with its box |
| `InferenceEnd.EvidentReported` | services/worker/connectors/vision_change.py:213-242 | every observation that a candidate holds is such a change |
| `InferenceEnd.ArrivalIrrelevant` | services/worker/connectors/vision_change.py:242 | neither the order in which rows arrived nor the windows never pulled change the candidates |
| `InferenceEnd.SweepCounts` | services/worker/connectors/vision_change.py:233-237 | the final sweep keeps rows and failures exact |
| `InferenceEnd.CompleteExact` | services/worker/connectors/vision_change.py:251 | if all windows are analyzed there are no failures |
| `InferenceEnd.ReasonsExact` | services/worker/connectors/vision_change.py:239 | the reasons named in the error are those the statuses and answers determine |
| `InferenceEnd.FinalSummary` | services/worker/connectors/vision_change.py:243-256 | the returned counters, failures and complete flag are exact |
| `ChangeDetect.Detect` | services/worker/connectors/change_detect.py:819-847 | the whole vision path: more than 128 tiles, no windows, or a run over windows 800 px wide and high in which every kept window ends with a status, and, when no asked window's answer stops all, with the one that coverage, its two images in order and its answer decide; a run of which nothing could be read is an error; the candidates are Expected of the plan; whatever meets the area and is at most 400 px wide and high lies whole in a kept window, if the query returned the windows that meet the area |
| `ChangeDetect.PlanSettles` | services/worker/connectors/change_detect.py:819-847 | each status of a run without cancel, from the coverage by the two vintages, the two readings and the answer |
| `ChangeDetect.SeenInArea` | services/worker/connectors/change_detect.py:825 | what meets the area and is whole in some window is whole in one that the filter keeps |
| `ChangeDetect.CancelledIsFree` | services/worker/connectors/vision_change.py:200-212 | when the answers come from the attempt loop, a window that ends as cancelled cost no attempt |
| `InferenceEnd.CancelledCostsNothing` | services/worker/connectors/vision_change.py:200-212 | a cancelled window cost no attempt, and a collected call without attempt or answer is a cancelled window |
| `ChangeDetect.KeptExactly` | services/worker/connectors/change_detect.py:247-248 | filtering keeps exactly the windows whose ids were returned, ids distinct |
| `ChangeDetect.EndsSettled` | services/worker/connectors/change_detect.py:845-847 | after inference no status is open |
| `ChangeDetect.EverythingSeen` | services/worker/connectors/change_detect.py:819-820 | with 800 px tiles and 400 px overlap, whatever is at most 400 px wide and high is whole in some window |
| `RetryGate.NextSound` | services/worker/connectors/vision_change.py:151-180 | published delays are never negative, no reply is reported as cancelled, only a parsed reply carries changes |
| `RetryGate.CallBounded` | services/worker/connectors/vision_change.py:147-181 | at most three attempts; a call is cancelled if and only if it made none |
| `RetryGate.CallExact` | services/worker/connectors/vision_change.py:147-181 | the loop ends exactly at a shut gate, at the first final reply, or after three attempts |
| `RetryGate.StopsAllExactly` | services/worker/connectors/vision_change.py:160-172 | exactly a fatal status, or a retryable one with a delay over a minute or without end, stops all other calls |
| `RetryGate.TileCall` | services/worker/connectors/vision_change.py:143-181 | the attempt loop returns the specified answer, raises the cancel flag exactly on a reply that stops all, and leaves the gate shut at least until every delay it published |
| `RetryGate.ThreadsRunTheLoop` | services/worker/connectors/vision_change.py:143-181 | in every interleaving each thread is where the loop of one call is after exactly the replies sent to that thread, and returns what the loop returns for them |
| `RetryGate.FlagExactly` | services/worker/connectors/vision_change.py:160-172 | in every interleaving the flag is up exactly when the caller raised it or some thread has returned an answer that stops all |
| `RetryGate.Gate.Defer` | services/worker/connectors/vision_change.py:129-131 | a cooldown is only ever extended |
| `RetryGate.RunCools` | services/worker/connectors/vision_change.py:123-140 | in every run the shared cooldown, the clock and the record of cooldowns only grow |
| `RetryGate.DelayHonoured` | services/worker/connectors/vision_change.py:129-140 | once a delay is published, no thread starts a call before it is over, whatever the others do |
| `RetryGate.RetryAfterPublished` | services/worker/connectors/vision_change.py:164-173 | an acceptable Retry-After of a retryable status is what gets published |
| `RetryGate.ReceiveExact` | services/worker/connectors/vision_change.py:151-180 | what every reply does to its call: 400, 401, 403 and 404 end all; 408, 429, 500, 502, 503 and 504 wait for the Retry-After, or 1, 2 and 4 seconds without one, and are deferred beyond 60 seconds; a lost connection is tried again while attempts are left; malformed output and broken answers are not |
| `RetryGate.PublishExact` | services/worker/connectors/vision_change.py:129-131 | the cooldown becomes the later of the two, and the call goes on if it has an attempt left |
| `RetryGate.NoEarlyPass` | services/worker/connectors/vision_change.py:133-140 | no pass happens before the expiry of any cooldown published up to then |
| `RetryGate.AttemptsCountPasses` | services/worker/connectors/vision_change.py:147-150 | attempts are exactly the passes through the gate, in every interleaving |
| `RetryGate.ThreeAttempts` | services/worker/connectors/vision_change.py:147-181 | no thread passes more than three times, and a returned call is cancelled if and only if it never passed |
| `RetryGate.CancelExact` | services/worker/connectors/vision_change.py:133-140 | after a cancel a thread starts at most one more call, and can do so if and only if it had already looked at the flag and was about to read the clock |
| `RetryGate.LateStart` | services/worker/connectors/vision_change.py:133-140 | a run from the start in which that happens |
| `RetryGate.CancelEnds` | services/worker/connectors/vision_change.py:133-140 | after a cancel a sleeping thread returns without waiting for the clock and without another attempt |
| `Jobs.StepKeeps` | services/worker/jobs.py:64-179 | every step keeps the job and worker invariants |
| `Jobs.RunKeeps` | services/worker/jobs.py:64-179 | so does every run |
| `Jobs.OneRunning` | services/worker/jobs.py:64-179 | no two jobs run at once |
| `Jobs.AttemptsCountClaims` | services/worker/jobs.py:82-93 | the attempt counter counts claims through crashes and recoveries |
| `Jobs.ClaimBound` | services/worker/jobs.py:64-179 | a job is claimed at most twice; an error means exactly two claims, a queued or cancelled job at most one |
| `Jobs.Absorbing` | services/worker/jobs.py:132-137 | done, error and cancelled are final: no field of such a job changes and it is never claimed |
| `Jobs.RowsExact` | services/worker/jobs.py:64-147 | in every run the jobs are the enqueued ones in order, each with the workspace and time stamp it was enqueued with, and with the result that its handler returned |
| `Jobs.NoOvertaking` | services/worker/jobs.py:69-77 | when a job is claimed every strictly older job is finished |
| `Jobs.WaitBound` | services/worker/jobs.py:64-179 | while a job is unfinished at most 2N claims happen, N counting the jobs created no later than it, less what those had spent |
| `Jobs.CancelReplyMeans` | services/mcp/job_ops.py:46-67 | no job is reported exactly when the job does not exist or is another workspace's, and then nothing changes; cancelled is answered exactly when the job is the caller's and queued at the update, and is final; a reply of finished names the latest status, which is final or queued |
| `Jobs.MisleadExactly` | services/mcp/job_ops.py:46-67 | some interleaving makes the reply call a queued job finished if and only if, at the request, the caller can see the job and it is untried and queued or running its first try |
| `Jobs.MisleadingReply` | services/mcp/job_ops.py:60-67 | a run in which that happens |
| `Jobs.WorkspaceFixed` | services/mcp/job_ops.py:30-33 | a job never changes its workspace |
| `JobTable.Table.Enqueue` | services/mcp/job_ops.py:9-13 | a new job is queued last, with its workspace and time stamp and no attempts |
| `JobTable.Table.FetchOldest` | services/worker/jobs.py:69-81 | returns an oldest queued job, or none exactly when none is queued |
| `JobTable.Table.PollOnce` | services/worker/jobs.py:64-147 | one round is a claim of an oldest job, the client steps in between, and the report: the job holds the handler's result, or is queued again after a first and in error after a second failure, with the message; nothing happens without a queued job |
| `JobTable.Table.Settle` | services/worker/jobs.py:102-137 | the outcome is recorded by the attempt number read at the claim |
| `JobTable.Table.RequeueOrphans` | services/worker/jobs.py:150-179 | every running job goes back, or ends in error when both tries are spent; an earlier error text is kept |
| `JobTable.Table.CancelQueued` | services/mcp/job_ops.py:51-57 | exactly a queued job of the right workspace is cancelled, and nothing else changes |
| `JobTable.Table.Cancel` | services/mcp/job_ops.py:46-67 | the reply and the table for every interleaving of the three statements; a job of another workspace is reported as missing and stays as it is |
| `JobTable.ClientsKeepClaim` | services/worker/jobs.py:64-147 | clients cannot disturb the job that the worker is busy with |
| `JobTable.ClientsLeave` | services/worker/jobs.py:64-147 | the row of the job that the worker is busy with is not changed by clients |
| `Workspaces.AlwaysConsistent` | services/mcp/sessions.py:172-216 | in every interleaving: at most one active workspace and at most twenty per key, unique names per key, unique schemas over all keys, valid names |
| `Workspaces.StepKeeps` | geodata_common/workspaces.py:12-80 | every transaction keeps this |
| `Workspaces.Untouched` | geodata_common/workspaces.py:12-80 | a key's rows are untouched by runs in which it takes no step |
| `Workspaces.SweepHarmless` | services/worker/jobs.py:182-217 | from a clean start every schema has an owner in every interleaving and a sweep drops nothing |
| `Workspaces.OnlyDeleteDrops` | geodata_common/workspaces.py:62-80 | from a clean start a schema disappears only when its own key deletes the workspace owning it |
| `Workspaces.EnsuredOwned` | services/mcp/sessions.py:306-317 | the re-read under the lock is what makes a created schema owned |
| `Workspaces.BeginsEmptyExactly` | services/mcp/workspace_ops.py:50-53 | a created workspace finds its schema already there exactly when the name it drew is an orphan's, and never from a clean start |
| `Workspaces.BeginFullExactly` | services/mcp/workspace_ops.py:50-53 | a creation that nothing refuses can find its schema already there if and only if an orphan exists as it is called |
| `Workspaces.OnlyOrphansDropped` | services/worker/jobs.py:195-211 | a sweep drops only what was an orphan when it was listed |
| `Workspaces.OrphanAdopted` | services/worker/jobs.py:195-211 | a run in which a workspace created between listing and dropping loses its schema |
| `Workspaces.OrphanHurts` | services/worker/jobs.py:182-217 | a start with one unowned schema from which a run costs a live workspace its schema |
| `Workspaces.SweepSafeExactly` | services/worker/jobs.py:182-217 | some run after the listing costs a live workspace its schema if and only if an orphan exists at the listing |
| `Resolving.StompExactly` | services/mcp/sessions.py:246-267 | some interleaving of a call of resolve takes the active flag from a workspace that a concurrent switch gave it to, if and only if the key has no active workspace as the call starts |
| `Resolving.UndoneFromEmpty` | services/mcp/sessions.py:246-267 | from the empty store such a run exists for every key |
| `Resolving.FallBackStomps` | services/mcp/sessions.py:212-214 | the fallback, when it succeeds, takes the flag from whatever else is active |
| `Resolving.SwitchUndone` | services/mcp/sessions.py:253-267 | a switch that lands between the locked look and the creation is undone |
| `Resolving.QuietResolve` | services/mcp/sessions.py:253-267 | without an activation by the same key in between there is nothing to undo |
| `WorkspaceStore.Database.GetOrCreateWorkspace` | services/mcp/sessions.py:172-216 | the reply and the new tables: an existing workspace of that name is found, otherwise one row is added under the first of four drawn schema names that is free, refused from twenty on; with activation it alone is active, and no other row changes |
| `WorkspaceStore.Database.InsertRow` | services/mcp/sessions.py:198-212 | the first of four drawn names that no row uses is taken |
| `WorkspaceStore.Database.ActivateWorkspace` | geodata_common/workspaces.py:32-43 | refused exactly when the key does not own the id; otherwise that one alone is active |
| `WorkspaceStore.Database.SetActive` | geodata_common/workspaces.py:37-42 | the workspace is active, its key's other workspaces are not, and nothing else changes |
| `WorkspaceStore.Database.OwnedByName` | geodata_common/workspaces.py:17-29 | finds exactly the workspace of that name, which is unique |
| `WorkspaceStore.Database.UseWorkspace` | services/mcp/workspace_ops.py:59-67 | switching by name |
| `WorkspaceStore.Database.RenameWorkspace` | geodata_common/workspaces.py:46-59 | done exactly when the name is valid, the key owns the id and no other workspace of the key has the name (nor this one, unless allowed); then this row alone bears the new name and no workspace of the key bears the old one; otherwise no row changes |
| `WorkspaceStore.Database.RenameByName` | services/mcp/workspace_ops.py:70-82 | the id read before the lock is checked again under it, whatever happened between; when done, the workspace that was read bears the new name, no other row changes, and without interference the key owns nothing under the old name |
| `WorkspaceStore.Database.DeleteWorkspace` | geodata_common/workspaces.py:62-80 | exactly for the owner and with the right schema name, this row and its schema go, and nothing else |
| `WorkspaceStore.Database.DeleteByName` | services/mcp/workspace_ops.py:85-106 | deletes the named workspace and its schema exactly when the name is owned, and changes nothing otherwise |
| `WorkspaceStore.Database.EnsureSchemaCommit` | services/mcp/sessions.py:306-331 | a schema is returned if and only if its workspace still exists, and then it exists and is that workspace's |
| `WorkspaceStore.Database.SweepListOrphans` | services/worker/jobs.py:195-203 | lists the unowned schemas of the right shape |
| `WorkspaceStore.Database.SweepDropListed` | services/worker/jobs.py:204-212 | drops exactly what was listed |
| `WorkspaceStore.Database.Resolve` | services/mcp/sessions.py:246-267 | what each of the three steps leaves, and that a resolved workspace is active |
| `OAuth.StepKeeps` | services/mcp/oauth.py:97-128 | every step keeps the ownership of codes, tokens and grants |
| `OAuth.OneHolder` | services/mcp/oauth.py:366-404 | in every interleaving a subject's pending codes, refresh tokens and grants under way are at most one together (RFC 6749 section 6) |
| `OAuth.RedeemedOnce` | services/mcp/oauth.py:370-392 | a code is redeemed at most once in any run (RFC 6749 section 4.1.2) |
| `OAuth.AttemptBurns` | services/mcp/oauth.py:375-384 | presenting a code spends it, even with the wrong client, redirect or verifier |
| `OAuth.GrantOrigin` | services/mcp/oauth.py:340-384 | in every run a code becomes a grant only within 300 seconds of an authorization step of the same client with the same redirect, for the subject of that step, and only with a verifier of its challenge |
| `OAuth.TokenOrigin` | services/mcp/oauth.py:366-404 | every stored token has the subject and client minted with a code that was redeemed with a fitting verifier (RFC 7636 section 4.6) |
| `OAuth.RotatedOnce` | services/mcp/oauth.py:118-128 | a rotated refresh token is never accepted again |
| `OAuth.DeadForGood` | services/mcp/oauth.py:366-404 | a subject that lost its last code, token and grant, as by a restart between two steps, is never continued |
| `TokenEndpoint.Endpoint.ReapAuthCodes` | services/mcp/oauth.py:68-71 | links the code to its step: removes exactly the expired codes |
| `TokenEndpoint.Endpoint.AuthorizePost` | services/mcp/oauth.py:321-353 | links the code to its step: the exact refusals, a request without a challenge included, and one new code with a new subject otherwise |
| `TokenEndpoint.Endpoint.RedeemCode` | services/mcp/oauth.py:375-384 | links the code to its step: the code and the expired ones are removed in any case; a grant results exactly when the code was there, unexpired, of this client and redirect, and the verifier fits |
| `TokenEndpoint.Endpoint.ConsumeRefresh` | services/mcp/oauth.py:118-128 | links the code to its step: deletes the row and names its subject exactly when it may be used |
| `TokenEndpoint.Endpoint.IssuePair` | services/mcp/oauth.py:97-115 | links the code to its step: stores the pair with its two lifetimes for the grant's client and subject, and removes exactly the expired rows |
| `TokenEndpoint.Endpoint.RestartProcess` | services/mcp/oauth.py:54-57 | links the code to its step: codes and requests under way are lost, tokens stay |
| `Control.StartedOnce` | services/control/app.py:169-211 | through any crashes and restarts a request id is taken up by the executor at most once, and only if it was accepted |
| `Control.IssuedOnce` | services/control/app.py:191-202 | the command of a request id is issued at most once, and only for an action that was taken up |
| `Control.SuccessMeansIssued` | services/control/app.py:191-211 | a recorded success means that the command was issued, once, unless an exception that no handler names ended this very action before its command |
| `Control.OneUnresolved` | services/control/app.py:180-184 | no service ever has two unresolved actions |
| `Control.Preserved` | services/control/app.py:189-211 | an action keeps its one row and one result, and a resolved action is never started |
| `Control.NeverRetried` | services/control/app.py:60-62 | after a restart every action accepted before is resolved for good, as unknown if it had no result |
| `Control.Repeated` | services/control/app.py:169-189 | a repeated request changes nothing and is accepted, refused if the id is used for something else |
| `Control.ResultsMeanStarted` | services/control/app.py:191-211 | a result other than unknown means that the executor took the action up |
| `Control.StepKeeps` | services/control/app.py:51-211 | every step keeps the invariant |
| `Controller.Service.constructor` | services/control/app.py:33-62 | links the code to its step: starting over existing tables marks unresolved actions unknown |
| `Controller.Service.Submit` | services/control/app.py:169-187 | links the code to its step: the exact refusals, and one row inserted under the lock for a new accepted request |
| `Controller.Service.HandOver` | services/control/app.py:188-189 | links the code to its step: hands one accepted action to the executor |
| `Controller.Service.BeginPerform` | services/control/app.py:191-202 | links the code to its step: takes up the oldest action handed over |
| `Controller.Service.IssueCommand` | services/control/app.py:194-202 | links the code to its step: the command of the action under way is issued |
| `Controller.Service.EndPerform` | services/control/app.py:192-211 | links the code to its step: one result row, success after a completed command or an exception that no handler names, error after a rejected one, unknown after a timeout |
| `Chunks.ChunkPages` | services/worker/connectors/pdf.py:20-41 | for any size of at least 1 and any overlap the loops terminate with the specified chunks, page by page |
| `Chunks.ChunkPage` | services/worker/connectors/pdf.py:24-40 | the loop of one page terminates and takes the specified stretches |
| `Chunks.Cut` | services/worker/connectors/pdf.py:27-33 | a stretch is non-empty, no longer than the size, and leaves more than half of it unless it ends the page |
| `Chunks.NextStart` | services/worker/connectors/pdf.py:39-40 | the next stretch begins later, and no later than where this one ended |
| `Chunks.ChunkShape` | services/worker/connectors/pdf.py:34-36 | every chunk is a non-empty slice of its own page, no longer than the size, without whitespace at its ends |
| `Chunks.EveryCharacterKept` | services/worker/connectors/pdf.py:20-41 | every non-whitespace character is in some chunk of its page |
| `Chunks.SpansFew` | services/worker/connectors/pdf.py:37-40 | all but the last stretch advance by the stride, so their number is bounded |
| `Chunks.ChunksAreStretches` | services/worker/connectors/pdf.py:24-40 | the chunks of a page are, in order and stripped, its stretches that are not blank; the stretches run from the start of the page to its end, each ends at the last blank of the second half of its window if there is one and else after the full size, and the next begins the overlap before that, or at it if that would be no progress |
| `Chunks.CutExact` | services/worker/connectors/pdf.py:27-33 | where a stretch ends |
| `Chunks.PagesInOrder` | services/worker/connectors/pdf.py:20-23 | pages are cut one by one, in order |
| `Chunks.DefaultChunkCount` | services/worker/connectors/pdf.py:15-16 | with the defaults a page of n characters gives at most (n - 1) / 451 + 1 chunks |
| `Text.StripKeeps` | services/worker/connectors/pdf.py:34 | stripping keeps every non-whitespace character, at a fixed offset |
| `EventStream.StreamLines` | services/worker/connectors/vision_api.py:74-89 | for every way of cutting the stream into chunks the lines are those of the whole |
| `EventStream.TakeLines` | services/worker/connectors/vision_api.py:78-86 | takes exactly the complete lines out of the buffer |
| `EventStream.FirstLine` | services/worker/connectors/vision_api.py:80-85 | a line complete in the buffer is a line of the stream whatever follows |
| `EventStream.RestLine` | services/worker/connectors/vision_api.py:86-89 | what is left without a line end is a line, unless it is empty |
| `EventStream.ConsumeEvents` | services/worker/connectors/vision_api.py:214-241 | the loop computes the meaning of the lines |
| `EventStream.ReadAnswer` | services/worker/connectors/vision_api.py:195-241 | the answer is a function of the whole stream, not of its chunks |
| `EventStream.Stopped` | services/worker/connectors/vision_api.py:220-221 | nothing after the end mark or an error changes the outcome |
| `EventStream.PiecesJoin` | services/worker/connectors/vision_api.py:216-234 | any number of successive events, each with a piece of text or none and any other fields, gather exactly the concatenated text |
| `EventStream.CuttingIrrelevant` | services/worker/connectors/vision_api.py:216-241 | streams that cut the same text into different events give the same outcome, whatever follows |
| `EventStream.WholeAnswer` | services/worker/connectors/vision_api.py:214-241 | pieces of text, an event with a reason to finish, one with the usage, the end mark and anything after it give the decoded text if the reason is "stop" and nothing otherwise, and each counter by its name, or 0 |
| `EventStream.UnusableRaises` | services/worker/connectors/vision_api.py:222-236 | an event that does not decode, is no object, reports an error or has a usage or choices of the wrong kind makes the answer an error, whatever follows |
| `EventStream.ChoicesJoin` | services/worker/connectors/vision_api.py:231-233 | several choices of one event add their texts in order |
| `EventStream.CrlfLines` | services/worker/connectors/vision_api.py:80-85 | writing CR LF for LF adds only empty lines |
| `EventStream.LineEndsIrrelevant` | services/worker/connectors/vision_api.py:214-241 | the answer is the same when LF line ends become CR LF (section 9.2.5 of the WHATWG HTML Standard) |
| `EventStream.OtherLinesIgnored` | services/worker/connectors/vision_api.py:217-218 | lines that are not data fields change nothing, anywhere in the stream |
| `ExportNames.UniqueName` | services/worker/exporter.py:182-189 | terminates by pigeonhole with the table name if it is free, else with the schema in front, else with the first free number behind |
| `ExportNames.FirstFreeUnique` | services/worker/exporter.py:182-189 | that name is determined |
| `ExportNames.CandidatesDiffer` | services/worker/exporter.py:187 | the numbered candidates are all different |
| `ExportNames.NameLayers` | services/worker/exporter.py:222-239 | over any list of layers, repeats included, the names are distinct, each the first free one |
| `ExportNames.OutputFiles` | services/worker/exporter.py:224-259 | no output file or archive entry overwrites another |
| `SiteBudgets.Divide` | services/viewer/imagery/map-sites.js:20-29 | invisible sites get 0, the k-th visible site its fair share, and the shares add up to exactly the budget when any site is visible |
| `SiteBudgets.FairShareBounds` | services/viewer/imagery/map-sites.js:27 | a fair share is the floor or the ceiling, the ceiling for exactly the last budget mod n visible sites |
| `SiteBudgets.ShareAt` | services/viewer/imagery/map-sites.js:27 | dividing what is left by the sites remaining gives that share |

## Left out

- Floating point: boxes, the clock, delays and the grid are exact reals and integers; rounding is not modelled.
- ConflictFlags.FlagTwo: the candidate whose lists change is named by position; that no two candidates are one object is required and proved at allocation.
- ReconciliationFacts.ConflictsExact: says what a conflict list holds; its order is that of the nested loops (ConflictFlags.FlagConflicts).
- VisionChange.ParseAllOrNothing: starts from the decoded value; JSON text, and numbers too large for a float, are not part of the model.
- InferenceRun.Infer: exceptions that leave the loop (a reader or progress callback that raises), usage and cost counters, timings and the progress callback are not modelled; the answer of each call is arbitrary but fixed before the run.
- RetryGate.TileCall: whether each wait passes is an input of the method; the waits are steps of the machine in the same module, whose threads run this loop (ThreadsRunTheLoop).
- ChangeDetect.Detect: the area is an arbitrary set of points, and that the query returns the windows meeting it is a premise of the statement about the area.
- The SAM3 backend, image reading, projection, mask polygons, the output tables and provenance of change detection.
- Jobs.WaitBound: assumes one worker whose restart recovers, as the code states; lost commit acknowledgements, a failed recovery sweep and several workers are not modelled. SKIP LOCKED is taken as the cancel coming first.
- JobTable.Table.PollOnce: the message of a failed handler is the text as recorded; that the code cuts it after 4000 characters is not modelled.
- Argument checks of job lookup and waiting for a job to end.
- Workspaces.SweepHarmless: the grants after a schema is created, map views, layer metadata and the key table are not modelled; a transaction is one step, and the advisory lock is that serialization.
- Resolving.StompExactly: takes two unused schema names and two unused ids to exist.
- Workspaces.SweepSafeExactly: takes some key without workspaces and some unused id to exist.
- Workspaces.AlwaysConsistent: a name ending in a line feed passes the tools' check and is refused by the table's, as CheckViolation and NameCheckViolation; that the first surfaces as an unhandled error is not modelled further.
- OAuth.OneHolder: the process clock and the database clock are one; random names are fresh by assumption; hashing is an arbitrary function; client registration, metadata routes, forms and redirects are not modelled. Access tokens may be several per subject, as in the code.
- Control.StartedOnce: one process at a time; a command may outlive the process that started it. An exception no handler names is recorded as success, as in the code.
- Status inspection, snapshots, their cache and the history listing of the controller.
- Chunks.ChunkPages: negative sizes and overlaps, for which the code gives no meaning. Surrogate code points are not characters here.
- EventStream.ReadAnswer: deadlines, timers and sockets; UTF-8 decoding and JSON decoding are parameters.
- ExportNames.OutputFiles: the layer reference pattern, ogr2ogr, the archive itself, upload and citations.
- SiteBudgets.Divide: which sites are visible is an input; budgets are integers.
- Other viewer code, catalogue harvesters, embedding, OCR and the dashboards: easy members or user interface.
