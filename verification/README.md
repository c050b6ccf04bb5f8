# Verified model of the extract's fetching, accounting and planning core

A Dafny model of the parts of this repository that fetch everything from a server
that clamps, fails, throttles or dies part-way, and then account for what was not
fetched. Check the whole project with `dafny verify dfyconfig.toml`.

- **Issue slicer** (`IssueSlicer`, `SliceSteps`, `Windows`, `Depths`, `Reach`, `Coverage`,
  `CellLabels`, `Facets`, `IssueServer`): bisects half-open creation-date windows with open outer
  edges, widens mis-bounded edges, cascades through facets inside one second, dedups,
  degrades, and books every loss.
  Main result: `FetchProjectIssues`.
- **Paginated fetch** (`RawClient`, `PageSizes`): survives server errors by moving to
  smaller pages mid-walk. Main result: `GetPaginatedResult`, on which the slicer is
  built.
- **Sliding-window limiter** (`RateLimiter`), **rate-limit gate and retry loop**
  (`Retry`). Main results: `LimiterIsSafe`, `AddedTimeIsPausedTime`, `RoundTrip`.
- **Resume and outage protocol** (`Executor`, `Resume`): failure streaks, done markers,
  taken-back outages, over any number of attempts. Main result:
  `DoneMarkersCanBeBelieved`.
- **Planner** (`Planner`): closure over possibly cyclic graphs, layered phases, and an
  exclusion view. Main result: `BuildPlan`.
- **Truncation artefact** (`Truncation`, over the generic `KeyedMerge`), **chunk store**
  (`ChunkStore`), **ETA** (`Progress`).

Conventions. A server is a function of the request's serial number and the request, so
it may answer any two requests differently; being honest is a separate predicate, and
only the results that name it need it. `all` and `list` are ghost parameters: the
collection a server may be serving, for any choice of it. Each mutex-held body is one
step or one method. Time is a parameter: whole seconds for creation dates, milliseconds
for delays, reals for the ETA. Go's errors are values of `Option` types. A class has the
fields of the source's type, and its methods state the whole new state they promise.

The one standing assumption of the exactness results is `IssueServer.Settled`: answered
requests are true of one fixed collection, with one value per facet and issue and distinct
keys, and the clock is past 2006; any request may fail. The rest are conditions of single
clauses: `Facets.Recoverable` (no second holds more than 10,000 issues, or types, severities,
rules, directories and files part each that does into cells that do not), `Reach.Found` (the
root's bounds hold every issue, or the one-row creation-date requests do not fail), and
`Reach.Reaches` (every issue lies above the depth backstop). `RootIsWithinReach` gives the
last two for issues created between 2006 and now (`WithinDefaultRange`) and for issues of
two different seconds anywhere (`Spread`), as long as the span is less than some two
thousand years, and `OneSecondOutcome` says when the last one holds of a single second.
`SlicedCollectionsExist` and `RecoverableSecondsExist` show they can be met together.

Where code and documentation disagree, the model follows the code:

- `go/internal/extract/slice.go:1118-1126` says an incomplete-slice record is written for
  any error; the error exits at lines 426-428 and 398-400 write none. `SliceProjectIssues`
  and `FetchProjectIssues` state exactly when a failure leaves no record: the fetch was not
  sliced, or both halves of its root were answered with at least the whole project.
  `RefusedFallbackLeavesNoRecord` gives a server on which both exits are reached. The same
  comment says that what was handed to the sink is on disk; a batch whose write fails is
  counted as collected and is not. `Slicer.Refused` is that batch, and it is empty exactly
  when the sink's failure is not the error.
- `go/internal/extract/slice.go:115-119` and `:876-882` say that dates outside the arithmetic
  range cost nothing and that bisecting the default range arrives at the same second. With
  more than 10,000 issues in one second, all of them 262,143 seconds before 2006, and no
  request failing, the walk meets the depth backstop and falls back to the unsliced fetch.
  `FetchProjectIssues` states exactly when: when the levels of the default range to
  its nearer end, one widening and the levels of the span from there to the second make 48
  or more. `OutOfReachInThisDecade` gives the seconds, before 2006 and past now, and
  `BackstopIsMet` the collections.
- `go/internal/common/writer.go:23-43` says a writer on a used directory appends instead
  of overwriting; its counter is 32 bits wide and wraps. `WriteChunk` states that a chunk
  is appended exactly when the counter does not wrap, and `SessionsPastTheLastIndex` that
  one file named for the last index is enough for a session to overwrite another's chunk.
- `lib/sq-api-go/retry.go:490-503` says a Retry-After is floored by the schedule and
  capped; a schedule above the cap loses its floor. `RetryAfterIsBounded` states exactly
  when the floor holds.
- `go/internal/common/truncation.go:387-396` says audits are merged by scope; they are
  merged by the scope's label. The scopes sliced walks are audited under
  (`go/internal/extract/slice.go:366-371`, `:1195-1206`) hold a project key and a branch
  (`go/internal/extract/tasks_projectdata.go:695-697`). `LabelsCollide`: branches of two
  projects can share a label exactly when one key begins with the other and an @.
- `go/internal/extract/slice_facets.go:174-178` says two cells never collapse into one
  record. `CellLabelsCollide`: they can exactly when one facet value is another one followed
  by a space, the next facet's name and an equals sign, as a directory named
  `d files=f` is. What is lost with them is `TotalSurvivesMerging`.

## Model

| member | source | states |
|---|---|---|
| IssueSlicer.FetchProjectIssues | go/internal/extract/slice.go:360-403 | One project's issues, end to end. Against an honest server over a fixed collection, with any requests failing: an undegraded success hands over or books every issue exactly once; all of them are handed over and nothing is recorded when the project fits one fetch, or when every overfull second is resolved by its facets (`Facets.Recoverable`) and the root holds every issue or the creation-date requests find the rest. When no page request fails and the sink accepts, it succeeds, undegraded from a root that reaches every issue. Only rejected dates can degrade a walk whose root reaches every issue above the depth backstop: so whenever dates lie between 2006 and now, and anywhere else when the creation-date requests find two different seconds. When no request fails and more than 10,000 issues share one second, the backstop degrades the walk exactly when that second is out of reach (`SliceSteps.OutOfReach`). A degraded success hands over at least what the unsliced fetch returns; a server that drops the date parameters always degrades it, and one that rejects every dated request degrades it to success when it serves the undated one. Whatever the server does, a sliced success accounts for every issue of the opening total; a failure leaves a record exactly when it was sliced and its dates were not found to be ignored, and then everything is in the sink, booked, or in the one batch the sink refused, which exists exactly when that refusal is the error |
| IssueSlicer.RefusedFallbackLeavesNoRecord | go/internal/extract/slice.go:389-428 | A concrete server on which both recordless exits happen: all of a project past the ceiling is missing, nothing is delivered, and no record or audit says so |
| IssueSlicer.FetchUnsliced | go/internal/extract/slice.go:360-384 | The first fetch brings the collection or its first page's truth; under stop-on-truncation one request decides whether it is clamped |
| IssueSlicer.Slicer.ContinueFrom | go/internal/extract/slice.go:376-402 | Where the unsliced first fetch leads: a complete one is the answer, one clamped by the ceiling with a known total is sliced, any other truncation falls back; the guarantees of the whole fetch, for each of the three |
| IssueSlicer.Slicer.SliceProjectIssues | go/internal/extract/slice.go:408-442 | No silent loss over every exit, for every server: a normal return leaves unaccounted at most what the source lost meanwhile; on an error return everything of the opening total is in the sink, booked, or in the batch whose refusal is that error, except, exactly, when both halves of the root are answered with at least the opening total, where a failing fallback leaves no record; dates are concluded to be ignored exactly then; an undegraded return over a settled collection is exact; a root that reaches everything is never degraded for its depth, and one second out of reach always is; it succeeds when no page request fails and the sink accepts, and, degraded, when every dated request is rejected or the dates are ignored and the undated one is served |
| IssueSlicer.Slicer.CheckDates | go/internal/extract/slice.go:414-420 | Dates are found ignored exactly when both halves of the root are answered with at least the total: never by an honest server, always by one that drops the parameters and answers |
| IssueSlicer.Slicer.FallBackFromIgnoredDates | go/internal/extract/slice.go:421-429 | The undated fetch either hands over the first 10,000 issues and is accounted for, or fails without a record |
| IssueSlicer.Slicer.WalkFromRoot | go/internal/extract/slice.go:430-441 | Walking an open root over a settled collection: nothing twice, nothing foreign; delivered plus booked is the whole collection when the root holds it or the creation-date requests find the rest; no record when the facets resolve every overfull second; never degraded when the root reaches every issue, and always when it is stuck on one second; no error when no page request fails and the sink accepts |
| IssueSlicer.Slicer.FetchIssueWindow | go/internal/extract/slice.go:446-482 | Mutual recursion over windows terminates by depth, open edges and stage; an undegraded, unfailed visit dealt with exactly the window's selection; a window that reaches its issues never meets the depth backstop, widening included, and one stuck on a second always does; once the context has ended nothing more is requested |
| IssueSlicer.Slicer.FetchHalves | go/internal/extract/slice.go:472-481 | Both halves of a split, one after the other, cover the window: nothing falls into the seam and nothing is covered twice |
| IssueSlicer.Slicer.FetchRightHalf | go/internal/extract/slice.go:472-481 | After the left half was dealt with, the right one is all new, and with it the whole window is dealt with |
| IssueSlicer.Slicer.FetchAtomicWindow | go/internal/extract/slice.go:558-570 | An overfull window that cannot be split is covered, with its open edges closed first so that a record names one second; nothing is booked for it when its facets resolve it |
| IssueSlicer.Slicer.CloseAtomicWindow | go/internal/extract/slice.go:604-637 | Closing an open edge never drops issues it selected when the bounds hold them or the date requests answer: either the window is widened and walked again or the closed second covers the same selection; otherwise only part of the selection may be covered, never more |
| IssueSlicer.Slicer.CloseOpenEdge | go/internal/extract/slice.go:604-637 | Dropping open edges deals with nothing the window does not select, and with all of it when nothing selected lies beyond the arithmetic bounds; it never degrades the walk |
| IssueSlicer.Slicer.FetchClosedWindow | go/internal/extract/slice.go:613-636 | The closed second counted again, then fetched, split by facets or skipped when empty, covers its own selection without degrading the walk |
| IssueSlicer.Slicer.WidenOpenEdge | go/internal/extract/slice.go:654-673 | The widened window selects what the old one did and ends or begins at the selection's own last or first second; a refusal means nothing selected lies beyond the arithmetic bounds, when they hold the selection or the date requests answer; a window whose bounds already hold its selection is never widened |
| IssueSlicer.Slicer.FetchWindowItems | go/internal/extract/slice.go:488-531 | A window that fits the ceiling is handed over whole, without a record |
| IssueSlicer.Slicer.KeepWindow | go/internal/extract/slice.go:508-530 | A complete fetch is absorbed with no record; a truncated one is absorbed and what the window grew by is booked |
| IssueSlicer.Slicer.FetchQuery | go/internal/extract/slice.go:786-808 | Pagination correctness composed with the ceiling and the slicer's state: over a settled selection a success brings all of it or its first 10,000, the ceiling stays 10,000, every request is counted, a server that never serves page 1 makes it fail, and one deciding answer ends it; a query whose pages are all answered never makes it fail |
| IssueSlicer.Slicer.FetchRoot | go/internal/extract/slice.go:1066-1077 | The undated fetch brings exactly the first 10,000 issues, and its failure is never taken for rejected dates |
| IssueSlicer.Slicer.FetchWindow | go/internal/extract/slice.go:786-808 | A zero-width window is refused before any request; any fetch restores the 10,000 ceiling; over a settled collection a success is the promised prefix of exactly this window's and these filters' selection |
| IssueSlicer.Slicer.Adopt | go/internal/extract/slice.go:820-827 | Whatever page size a fetch settled on, the ceiling afterwards is 10,000 |
| IssueSlicer.Slicer.ProbeWindowTotal | go/internal/extract/slice.go:844-864 | Succeeds exactly when a window that may be requested is answered with a readable total, and then with that total; over a settled collection it is the size of the window's selection |
| IssueSlicer.Slicer.ProbeIssueRange | go/internal/extract/slice.go:883-910 | The root is the one its two answers determine |
| SliceSteps.RootIsWithinReach | go/internal/extract/slice.go:883-910 | The root holds every issue and reaches it above the backstop when dates lie between 2006 and now, also when a date request fails, and wherever they lie when the requests answer and find two seconds |
| SliceSteps.FetchIsWithinReach | go/internal/extract/slice.go:871-910 | What is found and reached from a root, in terms of the collection and the clock: in the default range, in a probed span, and in one second exactly when the spans allow it |
| SliceSteps.OneSecondOutcome | go/internal/extract/slice.go:876-910 | With more than 10,000 issues in one second and no request failing, the walk is stuck exactly when the levels of the default range, one widening and the levels of the span from there to the second make 48 or more |
| SliceSteps.OutOfReachInThisDecade | go/internal/extract/slice.go:446-456 | With the clock between January 2023 and January 2040, a single second is out of reach exactly when it lies 262,143 seconds or more before 2006, or 65,536 or more past now |
| SliceSteps.BackstopIsMet | go/internal/extract/slice.go:876-882 | For every second out of reach and every size past the ceiling there is such a collection on an honest server that answers every request |
| Reach.HalvesReach | go/internal/extract/slice.go:471-481 | Bisecting keeps every issue within reach: what a half needs for its own seconds is no more than what the window needs, one level down |
| Reach.WideningReaches | go/internal/extract/slice.go:649-673 | So does widening a leaf, at the cost of one level and the path from the leaf; and the wider window is open at one end at most |
| Reach.LeafOutOfReach | go/internal/extract/slice.go:649-673 | A one-second leaf out of reach lies apart from its issues, and every window it can be widened to is out of reach too |
| Reach.BoundedIsReached | go/internal/extract/slice.go:446-481 | Bounds that hold everything, and whose width takes fewer levels than are left, reach everything |
| Reach.OneSecondReach | go/internal/extract/slice.go:876-882 | A root reaches a single second exactly when its levels to the nearer end, one widening and the levels of the span beyond are fewer than 48, or the path to it inside the bounds is |
| SliceSteps.HonestHalvesAreNotFull | go/internal/extract/slice.go:987-1016 | A server that honours the bounds cannot answer both halves of a non-empty collection with everything |
| SliceSteps.DroppedDatesFillHalves | go/internal/extract/slice.go:987-1016 | A server that drops the date parameters is found out whenever it answers both halves |
| SliceSteps.RefusingServerRefuses | go/internal/extract/slice.go:421-428 | A server on which the dates are found ignored and the fallback is refused |
| IssueSlicer.Slicer.ProbeCreationDate | go/internal/extract/slice.go:943-970 | One request for the window's own selection, oldest or newest first, answered at the tick it was sent |
| IssueSlicer.Slicer.DatesRespected | go/internal/extract/slice.go:987-1016 | Refuses exactly when both halves of the root are answered with at least the opening total; an unanswered half is an error and no refusal |
| IssueSlicer.Slicer.Absorb | go/internal/extract/slice.go:1024-1045 | Absorbing items changes the books as the dedup sieve says, keeps every key handed over distinct, and counts the new items before the sink can fail; what the sink has is all of them unless it refused this batch |
| IssueSlicer.Slicer.AbsorbWindow | go/internal/extract/slice.go:1024-1045 | The same, counted as one more window |
| IssueSlicer.Slicer.Dedup | go/internal/extract/slice.go:1024-1045 | The dedup loop computes the sieve: keyless items always pass and are counted, a seen key is a duplicate, any other key passes once |
| IssueSlicer.Slicer.Degrade | go/internal/extract/slice.go:1060-1078 | The first reason stays; the undated fallback runs at most once, and a second degradation sends no request; a successful fallback leaves the first 10,000 issues handed over; no record is written |
| IssueSlicer.Slicer.FetchUndated | go/internal/extract/slice.go:1066-1077 | Over a settled collection the fallback absorbs exactly its first 10,000 issues, and its failure is never taken for rejected dates |
| Coverage.AbsorbedIsHandedOver | go/internal/extract/slice.go:1060-1078 | Whatever was seen before, absorbing items leaves every one of them handed over |
| IssueSlicer.Slicer.CloseBooks | go/internal/extract/slice.go:430-441 | What a degradation left out is booked and the walk audited: accounted for in every world, and exact when the walk was |
| IssueSlicer.Slicer.WalkAndClose | go/internal/extract/slice.go:430-441 | From an untouched root: an undegraded success is exact, a success of any kind is accounted for and keeps what its fallback handed over; after a failure everything is in the sink, booked, or in the refused batch |
| IssueSlicer.Slicer.RecordShortfall | go/internal/extract/slice.go:1101-1142 | After the one record of a walk that stopped short, no issue of a known opening total is neither handed over nor booked; a walk already fully booked adds none; any other leaves one record with the reason, the unbooked rest and how far it got |
| IssueSlicer.Slicer.Reconcile | go/internal/extract/slice.go:1186-1246 | The audit carries the walk's own counts, and exactly the drift it cannot explain becomes one record; what is unaccounted afterwards is at most the source's own loss; over a settled collection books that were short become exact, and exact books get no record and zero drift |
| IssueSlicer.Slicer.CountNow | go/internal/extract/slice.go:1187-1193 | The closing count is the collection's size, or the opening total when the probe fails |
| IssueSlicer.Slicer.AuditWalk | go/internal/extract/slice.go:1195-1246 | The audit carries the walk's own counts, and unexplained drift becomes one record: a shortfall is booked, a surplus recorded without a loss |
| Truncation.DriftAccounts | go/internal/extract/slice.go:1186-1246 | Booking the unexplained drift leaves unaccounted at most what the source lost; with an unchanged count the books become exact, and exact books have no drift |
| IssueSlicer.Slicer.HandleWalkError | go/internal/extract/slice.go:758-777 | Only rejected dates let the walk return normally, degraded and accounted for; any other error is returned with everything missing booked, except the batch whose refusal is that error; with rejected dates it does return normally when the undated request is served |
| SliceSteps.DatedClientErrorsAreRejections | go/internal/extract/slice.go:729-748 | A request that carries a date bound is taken for rejected exactly when it comes back as a client error other than 403, 404, 408, 425 and 429, also after every page size was tried |
| IssueSlicer.Slicer.DegradeUnknownTotal | go/internal/extract/slice.go:389-402 | A truncated fetch without a usable total degrades the walk and, when the total is known after all, books everything missing |
| IssueSlicer.Slicer.Record | go/internal/extract/slice.go:1257-1260 | The expected loss stays the sum of the losses of all records the walk gave out; each names this project and branch, and a given-up second by its closed bounds |
| SliceSteps.CeilingSurvivesFallback | go/internal/extract/slice.go:288-296 | At every page size an issue fetch can fall back to, pages times size is the 10,000 ceiling exactly |
| SliceSteps.IssueFetchBrings | go/internal/extract/slice.go:488-506 | At every page size an issue fetch can end with: all of a selection of at most 10,000, the first 10,000 of a larger one, and clamped exactly then |
| SliceSteps.FittingFetchCovers | go/internal/extract/slice.go:488-531 | Absorbing such a fetch covers the selection with nothing booked |
| SliceSteps.HalvesAreDisjoint | go/internal/extract/slice.go:225-238 | No issue of the right half's selection is in the left half's |
| SliceSteps.RightHalfStaysUntouched | go/internal/extract/slice.go:472-481 | Dealing with the left half leaves every issue of the right half new |
| SliceSteps.HalvesCovered | go/internal/extract/slice.go:472-481 | Dealing with one half and then the other deals with the window, and covers it when both are covered |
| SliceSteps.HalvesAreBounded | go/internal/extract/slice.go:145-156 | A half's bounds hold what the half selects when the window's do |
| Depths.LevelsIsLog | go/internal/extract/slice.go:145-156 | The number of levels is the ceiling of the binary logarithm of the width in seconds, up to the widths whose seams saturate |
| Depths.FirstLevelsIsLog | go/internal/extract/slice.go:145-156 | The number of levels to a window's first second is the floor of the binary logarithm of its width |
| Depths.PathWithinLevels | go/internal/extract/slice.go:145-156 | No leaf of a window lies deeper than the levels of a window at least as wide |
| Depths.LevelsStayBelowBackstop | go/internal/extract/slice.go:446-456 | No width up to 292 years, where seams begin to saturate, takes as many levels as the depth backstop |
| SliceSteps.OneSecondFits | go/internal/extract/slice.go:558-570 | With no overfull second a closed leaf fits under the ceiling |
| SliceSteps.ClosingLosesNothing | go/internal/extract/slice.go:583-596 | When nothing selected lies beyond the arithmetic bounds the closed window selects the same list |
| SliceSteps.ClosingSelectsNoMore | go/internal/extract/slice.go:583-596 | Closing edges never selects an issue the open window did not |
| SliceSteps.FacetCoversCell | go/internal/extract/slice_facets.go:369-375 | Covers exactly when the bucket counts reach the cell's count |
| IssueSlicer.Slicer.FetchByFacets | go/internal/extract/slice_facets.go:301-322 | An overfull second is covered whatever the types facet returns; when types and severities, and within them rules, directories and files, part it into cells of at most 10,000 and the facets are answered, all of it is handed over, each issue once, with no record; without a failing page or sink there is no error |
| IssueSlicer.Slicer.PartitionByTypes | go/internal/extract/slice_facets.go:301-322 | Types that account for the whole second cover it, and hand it over whole when each can be resolved |
| SliceSteps.OverfullSecondResolves | go/internal/extract/slice_facets.go:301-354 | An overfull second of a recoverable collection is parted by its types, and each of its type buckets can be resolved |
| SliceSteps.ResolvesByNext | go/internal/extract/slice_facets.go:384-418 | A cell over the ceiling that the cascade resolves is parted by its next facet into at most 100 buckets that account for it, each of them resolved by the rest |
| SliceSteps.FacetReplyIsRight | go/internal/extract/slice_facets.go:197-243 | An honest facet answer without its empty buckets is exact, and of a facet that parts the cell it is every value there is |
| Facets.BucketsAreValues | go/internal/extract/slice_facets.go:197-243 | Exact non-empty buckets are values the selected issues have, and no more of them than there are |
| Facets.CompleteBucketsCover | go/internal/extract/slice_facets.go:356-375 | Buckets for every value, when every issue has one, account for the whole selection |
| Facets.RecoverableSecondsExist | go/internal/extract/slice_facets.go:301-354 | All assumptions of a fetch that loses nothing hold together of up to 20,000 issues in one second, half of them of one type |
| IssueSlicer.Slicer.FetchTypeCells | go/internal/extract/slice_facets.go:316-321 | Fetching the types one after another covers their cells; single-valued types never overlap; no record when each type can be resolved |
| IssueSlicer.Slicer.FetchTypeCell | go/internal/extract/slice_facets.go:330-354 | One type is covered by its severities, or by giving up on it; by its severities, with no record, when they resolve it |
| IssueSlicer.Slicer.FetchByRemainingFacets | go/internal/extract/slice_facets.go:384-418 | A cell is covered on every path of the rules, directories, files cascade: failed, empty, oversized or incomplete facets give up on it, complete ones partition it; no record when the cascade resolves it |
| IssueSlicer.Slicer.PartitionCell | go/internal/extract/slice_facets.go:330-418 | Buckets that account for the whole cell cover it |
| IssueSlicer.Slicer.FetchCells | go/internal/extract/slice_facets.go:336-417 | The cells of exact buckets are covered one by one, none touching another's issues; no record when each can be resolved |
| IssueSlicer.Slicer.FetchCellOrError | go/internal/extract/slice_facets.go:430-465 | A cell the probe said would fit is covered even when it does not fit after all, and without a record when finer facets resolve it |
| IssueSlicer.Slicer.GiveUpOnWindow | go/internal/extract/slice_facets.go:482-488 | Giving up covers the cell: what the capped fetch returned is handed over once and exactly the rest is booked |
| IssueSlicer.Slicer.RecordGiveUp | go/internal/extract/slice_facets.go:494-526 | A give-up absorbs a truncated fetch's items exactly once and books the cell's total less what was fetched, never a negative loss; its record names the cell and the closed second it is about |
| IssueSlicer.Slicer.FetchAndAbsorbCell | go/internal/extract/slice_facets.go:253-285 | A complete cell is absorbed; a truncated one leaves the books untouched |
| IssueSlicer.Slicer.ProbeFacet | go/internal/extract/slice_facets.go:197-243 | Buckets handed on are non-empty; over a settled collection they are exact, and a type or severity facet's counts add up to the cell; when the facet parts the cell and is answered, they are all its values |
| SliceSteps.NextCellIsUntouched | go/internal/extract/slice_facets.go:384-417 | After covering some buckets of a facet the next bucket's issues are all still new |
| SliceSteps.AllCellsCovered | go/internal/extract/slice_facets.go:356-375 | Exact buckets that account for the cell's size, all covered, cover the cell |
| SliceSteps.NonZeroBuckets | go/internal/extract/slice_facets.go:226-236 | Dropping empty buckets keeps the counts' sum and exactness |
| Windows.SplitIsPartition | go/internal/extract/slice.go:210-238 | Every second a window holds lies in exactly one half, and no other second in either |
| Windows.SplitKeepsSelection | go/internal/extract/slice.go:210-238 | A split loses no issue of any collection and repeats none, whatever the edges |
| Windows.IssueWindow.Mid | go/internal/extract/slice.go:154-156 | The seam lies strictly inside any splittable window, also where the duration saturates |
| Windows.CoveringBucketsAreTheSelection | go/internal/extract/slice_facets.go:356-375 | The pigeonhole behind trusting a facet: exact disjoint buckets never exceed the selection, and reach its size exactly when they hold every issue of it |
| Windows.CellsMultiplicity | go/internal/extract/slice_facets.go:384-418 | With one value per facet an issue is in the cells as often as in the selection, or not at all |
| Windows.CellNarrows | go/internal/extract/slice_facets.go:164-172 | A cell's request selects exactly the issues of the outer selection that carry the value |
| Windows.SelectMultiplicity | go/internal/extract/slice.go:254-267 | A request selects every copy of the issues within its bounds and filters, and no other issue |
| Windows.SelectKeepsKeysDistinct | go/internal/extract/slice.go:1024-1045 | A selection of a collection with distinct keys has distinct keys |
| Coverage.SiftAccountsForEveryItem | go/internal/extract/slice.go:1024-1045 | Every item either passes or is a duplicate, and the dedup set is exactly the keys handed over |
| Coverage.SiftPassesNewItems | go/internal/extract/slice.go:1024-1045 | Items with distinct, unseen keys all pass, in order |
| Coverage.AbsorbedPrefixCovers | go/internal/extract/slice_facets.go:494-526 | Handing over a prefix of a new selection and booking its remainder covers the selection |
| Coverage.CoveredBoth | go/internal/extract/slice.go:472-481 | Coverage adds up over two steps |
| Coverage.RestStaysUntouched | go/internal/extract/slice.go:472-481 | Dealing with one part of a collection leaves a disjoint part new |
| Coverage.CoveredWithoutLoss | go/internal/extract/slice.go:1186-1246 | A covered collection with nothing booked was handed over exactly |
| IssueServer.HonestServersExist | go/internal/extract/slice.go:844-864 | For every collection with distinct keys and one value per facet, and every clock past 2006, a server with full facets serves it honestly and answers every date request |
| IssueServer.SlicedCollectionsExist | go/internal/extract/slice.go:844-864 | All assumptions of the exactness results hold together, with non-empty facets, of collections of every size, those past the ceiling included |
| RawClient.Client.GetPaginatedResult | go/internal/common/rawclient.go:444-476 | Against a server that may fail any request: a success is a prefix of the served list with nothing repeated or skipped across resizes and restarts; all of it when no reason is given; exactly the page limit's items when clamped; clamped exactly when the known total exceeds the cap; at most seven attempts; every request counted; no page past offset 10,000 when the ceiling is within it. Only a success at a smaller size than it started with is learned from, and the path's next fetch starts no higher; after any other the learned sizes are as before. It survives: when from the start no request fails at some page size of the sequence, or at the start size, and larger sizes fail only with 500, 502, 503 or 504, it succeeds at that size or a larger one; and it fails only of cancellation, of another error, or at the smallest size of a failure within five seconds or a third slow one. After cancellation no page but the first is asked for |
| RawClient.WalkWithFallback | go/internal/common/rawclient.go:447-475 | The attempts of one fetch: the walk keeps tracking the list, stays under the cap and is resumed or restarted until an attempt succeeds or the last resort fails; at most seven attempts; it succeeds whenever some size at or below the start is served and larger ones fail only as a server error |
| RawClient.FailedResult | go/internal/common/rawclient.go:464-470 | A failed fetch still reports its requests, its last page size and the cap at that size |
| RawClient.PaginationWalk.MoveTo | go/internal/common/rawclient.go:471-474 | Going on at the next size, smaller or the same, keeps what the walk tracks and its cap |
| RawClient.Attempt | go/internal/common/rawclient.go:447-475 | One attempt and the fallback after it: it ends the fetch or hands the walk on, still tracking the list, at the next size; a deciding first answer ends it at once; a server error above a size that is served is always followed by a size not below it, and an attempt is the last only of success or a last-resort failure |
| RawClient.FallBack | go/internal/common/rawclient.go:463-474 | After a failure the walk is at the next size with everything it promised, or the fetch is over; sizes and retries run out; it gives up exactly at the last resort |
| RawClient.FailureIsAbove | go/internal/common/rawclient.go:463-474 | Where a size is served and larger ones fail only as a server error, a failing attempt was at a larger size, is no last resort, and the next size is not below the served one |
| RawClient.WalkPages | go/internal/common/rawclient.go:694-709 | One attempt keeps the walk on the list whether it succeeds or fails part-way, and a success reports and delivers what the fetch promises; an answer to page 1 past the cap, or full and without a total, decides it |
| RawClient.FinishPages | go/internal/common/rawclient.go:694-709 | What follows page 1 delivers the list or its capped part; a clamped walk that stops on truncation asks for nothing more |
| RawClient.ReadNextPage | go/internal/common/rawclient.go:735-744 | A page is read at the walk's own offset |
| RawClient.ReadToEnd | go/internal/common/rawclient.go:694-709 | The pages after the first stay under the cap and inside the offset limit, and the attempt stops only when it has read what the total and the cap allow, or met a short page |
| RawClient.StartWalk | go/internal/common/rawclient.go:712-724 | Page 1 is read once per walk; an attempt that resumes does not read it again |
| RawClient.ReadPages | go/internal/common/rawclient.go:732-746 | Every page read lands at its own offset of the list; without a total the loop stops at the first page that is not full; it stops when the context ends |
| RawClient.PaginationWalk.Resize | go/internal/common/rawclient.go:647-661 | Moving to a smaller page keeps a prefix aligned to the new pages, so the walk still tracks the list and stays under the new cap; otherwise it restarts blank; the prefix is exactly the whole new pages already held |
| RawClient.PaginationWalk.Add | go/internal/common/rawclient.go:664-670 | Appending the right page keeps the walk tracking the list; the walk stays aligned only while pages are full |
| RawClient.PaginationWalk.Bounds | go/internal/common/rawclient.go:674-690 | Clamped exactly when a known total passes the cap; otherwise every page of the total is read |
| RawClient.PaginationWalk.Restart | go/internal/common/rawclient.go:638-645 | Forgets the items but not the requests made |
| RawClient.PaginationWalk.Result | go/internal/common/rawclient.go:750-768 | An unknown total with a full last page takes precedence over a clamp; the result counts what was fetched |
| RawClient.FallbackState.Next | go/internal/common/rawclient.go:478-519 | Gives up exactly on an error that is no size fallback, on a fast failure at the minimum, or after two slow retries there; a retry otherwise moves to the next smaller size |
| RawClient.FinishedWalkDelivers | go/internal/common/rawclient.go:750-768 | A walk that read every page it set out to read delivers the list, or the capped part of it |
| RawClient.Client.RememberFallback | go/internal/common/rawclient.go:539-560 | What worked bounds the next fetch of this endpoint, a slow failure bounds every later one for good, by the next size below it and no smaller, and other endpoints are unaffected |
| PageSizes.CapKeepsCeiling | go/internal/common/rawclient.go:217-239 | At a smaller page the cap still reaches the caller's item ceiling and less than one page more, except when clipped to whole pages within 10,000 |
| PageSizes.ResumeStaysWithinCap | go/internal/common/rawclient.go:647-661 | What an attempt that failed early has read never passes the cap at the smaller size |
| PageSizes.NextSmallerPageSize | go/internal/common/rawclient.go:247-254 | The largest size of 500, 200, 100, 50 below the current one; none from 50 down |
| PageSizes.CeilDivIsLeast | go/internal/common/rawclient.go:1029-1034 | The page count is the least number of pages holding the total |
| PageSizes.OffsetIsProduct | go/internal/common/rawclient.go:653-670 | The offset of a page is pages before it times the size |
| PageSizes.SlowSizeIsKeptForGood | go/internal/common/rawclient.go:196-213 | A size learned from a slow failure bounds every later fetch, whatever is remembered afterwards |
| PageSizes.FastSizeExpires | go/internal/common/rawclient.go:182-213 | A size learned from fast failures only stops counting after five minutes |
| PageSizes.FastSizeLasts | go/internal/common/rawclient.go:182-213 | For five minutes it bounds every fetch, unless a smaller one was still remembered |
| RateLimiter.LimiterIsSafe | lib/sq-api-go/ratelimiter.go:46-190 | From a new limiter, over every interleaving of arrivals, attempts, wake-ups and cancellations with a clock that never runs back, with max the argument or 1 when it is not positive: any max+1 consecutive grants span strictly more than the window, grants follow arrival order less those who gave up, the head is never left asleep beside a known free slot, and the stored timestamps stay sorted and at most max long |
| RateLimiter.EveryRunIsSafe | lib/sq-api-go/ratelimiter.go:73-190 | The limiter's invariant holds in every state of every run |
| RateLimiter.StepKeepsInvariant | lib/sq-api-go/ratelimiter.go:73-190 | Each step keeps the invariant: rate, order, timestamps, wake-ups |
| RateLimiter.TryKeepsInvariant | lib/sq-api-go/ratelimiter.go:121-159 | An attempt, granted or refused, keeps the rate and the order, and wakes the head when it leaves a slot free |
| RateLimiter.GrantKeepsRate | lib/sq-api-go/ratelimiter.go:121-145 | Granting only while fewer than max timestamps are kept keeps the rate over the whole history of grants |
| RateLimiter.PurgeRemembersWindow | lib/sq-api-go/ratelimiter.go:123-135 | Purging drops only grants that have left the window, so what is kept is the latest part of the history |
| RateLimiter.CancelKeepsOrder | lib/sq-api-go/ratelimiter.go:180-190 | A waiter that gives up leaves from its own place, and the others keep their order |
| RateLimiter.EnqueueKeepsOrder | lib/sq-api-go/ratelimiter.go:103-109 | A new waiter goes to the end of the line |
| RateLimiter.WaitIsLongEnough | lib/sq-api-go/ratelimiter.go:146-159 | A refused waiter is told a positive wait of at most the window (or a millisecond), and at the head of the queue it is granted by any retry after it |
| RateLimiter.WaitIsNotTooLong | lib/sq-api-go/ratelimiter.go:118-157 | Refused at a full window, no waiter is granted before its wait is over, which is when the oldest grant in the window leaves it, or a millisecond when it is leaving now |
| RateLimiter.GrantedAsSoonAsAllowed | lib/sq-api-go/ratelimiter.go:118-157 | The head of the queue is granted exactly when there were fewer grants than the maximum or the one that many grants ago has left the window |
| RateLimiter.SlidingWindowLimiter.TryAcquire | lib/sq-api-go/ratelimiter.go:121-159 | The fields after an attempt are those of the specified step, and zero is returned exactly on a grant; what that wait is worth is `WaitIsLongEnough` and `WaitIsNotTooLong` |
| RateLimiter.SlidingWindowLimiter.Enqueue | lib/sq-api-go/ratelimiter.go:103-109 | Arrival as the specified step |
| RateLimiter.SlidingWindowLimiter.WakeHead | lib/sq-api-go/ratelimiter.go:165-173 | Only the head's channel gets a notification, and a full one stays as it is |
| RateLimiter.SlidingWindowLimiter.Dequeue | lib/sq-api-go/ratelimiter.go:180-190 | Departure as the specified step; one already gone changes nothing |
| RateLimiter.PurgeIsSuffix | lib/sq-api-go/ratelimiter.go:123-135 | Purging keeps a suffix and drops only times before the cutoff |
| Retry.AddedTimeIsPausedTime | lib/sq-api-go/retry.go:106-132 | Summed over any sequence of extensions with a clock that never runs back, what each call added is the length of the union of all pauses: overlaps once, gaps never |
| Retry.ReportedTimeIsPausedTime | lib/sq-api-go/retry.go:107-130 | What one request's Sonar rate limits and the other requests report as added is together the time anyone was held back at the gate, each millisecond once |
| Retry.PausedUpToDeadline | lib/sq-api-go/retry.go:106-132 | From the latest extension on, exactly the time before the deadline is paused |
| Retry.RateLimitGate.Extend | lib/sq-api-go/retry.go:116-132 | The deadline never moves back, and the call returns the pause it adds to what was pending |
| Retry.RoundTrip | lib/sq-api-go/retry.go:154-199 | At most one attempt more than the longest schedule; it stops at the first attempt that must not continue, sends each attempt no earlier than the gate's deadline allows, sleeps what the schedules say, returns the last attempt's outcome with its whole body, extends the shared gate by exactly its own Sonar rate limits besides what others do, tells the observer each 429's wait and what it added, which with what the others are told makes up the time the gate was closed, and reports recovery exactly when an earlier attempt was a 429 and the last got through. In terms of the three schedules: every repeatable attempt (a network error, a 429 or a 500, 502, 503 or 504 that is not handed back early, with a body that can be sent again and a context that has not ended) is repeated as long as its own kind's schedule lasts, after that schedule's wait, and no other attempt is; there is one event for each 429, in order; a Sonar limit closes the gate for its wait and nothing else of this request does; an attempt is sent as it comes or when a pause someone asked for is over |
| Retry.EndsFollowsSchedules | lib/sq-api-go/retry.go:455-503 | A trip that ends where its attempts stop continuing follows the default schedule for network and server errors, and for each kind of 429 that kind's own schedule or else the default one |
| Retry.EveryTripIsFaithful | lib/sq-api-go/retry.go:154-199 | Schedules, events, recovery, send times and the deadline left at the gate, for every trip |
| Retry.Send | lib/sq-api-go/retry.go:94-104 | An attempt waits for the deadline it finds, unless its context ends there |
| Retry.PlanRetry | lib/sq-api-go/retry.go:223-241 | Another attempt follows exactly when it is scheduled and the body can be sent again; giving up leaves the body whole |
| Retry.WallClockAdded | lib/sq-api-go/retry.go:248-267 | A request that gives up adds no pause, a Sonar rate limit what the gate gained, any other 429 its own wait |
| Retry.DeadlineOfExtensions | lib/sq-api-go/retry.go:106-132 | The deadline stands where the whole history of extensions puts it |
| Retry.PlannedWaitContinues | lib/sq-api-go/retry.go:459-470 | A planned wait lies within the schedules |
| Retry.RetryAfterIsBounded | lib/sq-api-go/retry.go:459-503 | An honoured Retry-After never passes 300 s, and keeps at least the scheduled wait exactly when the schedule is within that, as all shipped ones are |
| Retry.ObserveRateLimit | lib/sq-api-go/retry.go:441-453 | Classifying a 429 consumes at most the snippet plus one byte, and what was consumed and what is left are the body |
| Retry.RestoreConsumedBody | lib/sq-api-go/retry.go:302-324 | The consumed bytes followed by the rest |
| Planner.BuildPlan | go/internal/common/planner.go:74-186 | Resolving and planning with one set of exclusions fails exactly when a needed task is missing, or the needed tasks really depend on each other in a cycle; excluded tasks never make up a cycle |
| Planner.ResolveDependenciesExcluding | go/internal/common/planner.go:63-85 | On any graph, cyclic or not: the closure of the targets, or nothing exactly when a task reachable without excluded ones is missing |
| Planner.ResolveExcluding | go/internal/common/planner.go:87-109 | One depth-first visit adds only tasks this one reaches, leaves none of their dependencies out, and fails only on a reachable missing task |
| Planner.ClosureIsReachability | go/internal/common/planner.go:63-109 | The closure is what the targets reach and the least set closed under non-excluded dependencies |
| Planner.PlanPhasesExcluding | go/internal/common/planner.go:112-186 | A plan exists exactly when no part of the set waits only for itself or for tasks outside; each phase holds all tasks ready by then and only those |
| Planner.CollectReadyTasks | go/internal/common/planner.go:131-142 | Exactly the unfinished tasks whose non-excluded dependencies are finished |
| Planner.AllDepsCompleted | go/internal/common/planner.go:145-152 | Every non-excluded dependency is finished |
| Planner.PlanRespectsDependencies | go/internal/common/planner.go:112-128 | Each task is in exactly one phase, and each dependency in a strictly earlier one |
| Planner.PlanIsEarliest | go/internal/common/planner.go:112-128 | No assignment of phases that respects dependencies runs any task earlier |
| Planner.CycleHasNoPlan | go/internal/common/planner.go:112-128 | A set with a plan has no cycle |
| Planner.NeverReadyHasCycle | go/internal/common/planner.go:177-209 | Over a closed set, tasks that are never ready contain a cycle |
| Planner.StuckHasCycle | go/internal/common/planner.go:112-128 | A finite set in which every task waits for another contains a cycle |
| Planner.PlannedTasksGetReady | go/internal/common/planner.go:112-128 | No part of a planned set waits only for itself or for tasks outside |
| Resume.DoneMarkersCanBeBelieved | go/internal/extract/extract.go:236-341 | Over any number of attempts in one directory, with any interleaving of tasks, their items, failures, successes and outages, the other items of a task that one of them stopped included: between runs every done task processed each item completely or the item's project is in the saved list, its dependencies are done too, and its output is from one attempt |
| Resume.EveryRunKeepsInvariant | go/internal/extract/extract.go:236-341 | The protocol's invariant holds after every step sequence |
| Resume.StepKeepsInvariant | go/internal/extract/extract.go:236-341 | Every step of a task, a project, an outage or a resumed run keeps it |
| Resume.EndOutageKeeps | go/internal/extract/extract.go:273-294 | Ending an outage keeps the invariant, also while other items of the same task go on and may end it again |
| Resume.EndOutageKeepsDone | go/internal/extract/extract.go:273-294 | Taking projects back is safe: a task that may have skipped one finished inside the streak and loses its marker |
| Resume.SucceedKeeps | go/internal/extract/extract.go:263-271 | A success makes the streak's projects stay out for good, so its tasks' markers may stay |
| Resume.FailKeeps | go/internal/extract/failed_projects.go:28-47 | Skipping a failed project leaves every done task and every running task accounted for |
| Resume.WriteKeeps | go/internal/extract/helpers.go:116-141 | Writing an item's output, complete or not, never mixes attempts and takes nothing a done task has |
| Resume.PlannedJobIsValid | go/internal/common/planner.go:112-186 | Whatever the planner returns is a job the protocol can run: every dependency a run waits for is in an earlier phase |
| Resume.FinishKeeps | go/internal/extract/extract.go:620-652 | A task is marked done only with every item accounted for and every dependency done, and never during an outage |
| Resume.FinisherIsReady | go/internal/extract/extract.go:607-652 | A task about to be marked done was not done before, and all its dependencies are |
| Resume.StartKeeps | go/internal/extract/extract.go:821-898 | Starting again from a believable directory loses no done task's output and keeps every saved project out |
| Resume.StartingIsFiltering | go/internal/extract/extract.go:853-898 | Starting a run leaves the same tasks and the same output as filtering its plan |
| Resume.NextPhaseKeeps | go/internal/extract/extract.go:607-618 | A phase starts only with every earlier phase done |
| Resume.EndRunKeeps | go/internal/extract/extract.go:837-851 | Saving the failed projects on either exit makes the directory believable again |
| Resume.SavedIsWhatFailed | go/internal/extract/extract.go:246-341 | Over any interleaving, what a run saves is exactly what was saved before and the projects with a failure that no outage took back: one after which a success came before each outage that ended later |
| Resume.DoneIsWhatFinished | go/internal/extract/extract.go:281-313 | The markers a run leaves are exactly those there before and one for each task that finished before any outage, unless it finished in a streak that an outage ended with no success between; a run through all phases without an outage marks every planned task |
| Resume.RunIsExplained | go/internal/extract/extract.go:246-294 | At every point of a run the failed projects and the streak are what the steps so far explain |
| Resume.StatusKeeps | go/internal/extract/helpers.go:116-141 | Starting a task, skipping an item and failing a task keep the invariant |
| Executor.Executor.SkipFailedProject | go/internal/extract/failed_projects.go:28-47 | An error that is not one project's stops the run and changes nothing; a first failure counts once; the run stops exactly when the streak reaches 25, and then what the outage takes back is taken back; a stopping failure leaves out what failed before the streak and nothing of it, any other failure adds its own project |
| Executor.Executor.RecordProjectFailure | go/internal/extract/extract.go:246-258 | A project counts once, with its first failure |
| Executor.Executor.RecordProjectSuccess | go/internal/extract/extract.go:263-271 | Ends the streak and keeps its projects failed |
| Executor.Executor.EndOutage | go/internal/extract/extract.go:281-294 | The streak's projects are failed no more and the tasks that finished during it lose their markers, and no others; the streak is over and the outage noted |
| Executor.Executor.MarkTaskDone | go/internal/extract/extract.go:300-313 | No marker during an outage; a marker during a streak is noted |
| Executor.Executor.RestoreFailedProjects | go/internal/extract/extract.go:328-341 | The saved projects join those skipped, without touching the streak |
| Executor.DataStore.FilterCompleted | go/internal/extract/extract.go:853-879 | What remains of the plan is its unfinished part, and the output of exactly those tasks is gone |
| Executor.DataStore.TasksToRun | go/internal/extract/extract.go:881-898 | The phase's unfinished tasks in order; those that had output are reported and lose it |
| Executor.DataStore.DiscardUnfinished | go/internal/common/store.go:280-292 | Deletes a task's output only when it is not done |
| Executor.UnfinishedTasks | go/internal/extract/extract.go:853-879 | The remaining plan holds exactly the tasks not done, and no empty phase |
| Executor.UnfinishedKeepsOrder | go/internal/extract/extract.go:853-879 | Whatever ran in an earlier phase than an unfinished task is done or still does |
| Truncation.MergeTruncationStates | go/internal/common/truncation.go:387-431 | The index-map merge computes the normalisation of the concatenated records and audits |
| Truncation.MergeRecords | go/internal/common/truncation.go:397-420 | One record per identity, in first-seen order, a larger loss replacing a smaller one in place |
| Truncation.MergeAudits | go/internal/common/truncation.go:397-431 | The normalisation of the audits by label |
| Truncation.MergedAuditsAreTheLatest | go/internal/common/truncation.go:387-431 | One audit per label, the most recent one |
| Truncation.LabelDistinguishes | go/internal/common/truncation.go:111-131 | The labels two audits can carry are equal exactly for one branch of one project, or when one key is the other, an @ and the beginning of the other's branch |
| Truncation.LabelsCollide | go/internal/common/truncation.go:387-431 | Branches of two projects can share a label exactly when one project key begins with the other key and an @ |
| KeyedMerge.MergeByKey | go/internal/common/truncation.go:397-431 | One pass with a map from identity to place computes the keyed fold, for records and audits alike |
| Truncation.MergeIsAssociative | go/internal/common/truncation.go:387-431 | Merging three states gives the same however they are grouped |
| Truncation.FlushingTwiceIsFlushingOnce | go/internal/common/truncation.go:323-364 | Flushing a tracker, letting it grow and flushing again leaves what one flush at the end would have left |
| Truncation.MergedRecordsAreTheWorst | go/internal/common/truncation.go:387-431 | The merged records have distinct identities in first-seen order, each the first record of the largest loss |
| Truncation.WorstOfIsFirstWorst | go/internal/common/truncation.go:387-431 | The record kept for an identity is the first among those of maximal loss |
| Truncation.MergedTotalCoversBoth | go/internal/common/truncation.go:387-440 | With non-negative losses the merged total is never below either input's own merged total |
| Truncation.TotalSurvivesMerging | go/internal/common/truncation.go:387-440 | For losses that are never negative, the artefact's total is at most the sum of all booked losses, and equal to it exactly when no two records that lost something share an identity |
| Truncation.IdentityDistinguishes | go/internal/common/truncation.go:387-431 | Two records have one identity exactly when they agree in endpoint, reason, task, project, branch, detail and both bounds of the window |
| IssueSlicer.Slicer.ArtefactKeepsLoss | go/internal/extract/slice.go:1257-1260 | What any walk booked is what its records total once merged, exactly when no two of them that lost something share an identity |
| CellLabels.CellLabelsCollide | go/internal/extract/slice_facets.go:174-191 | Inside one outer cell, cells of two different values of a facet, alone or narrowed further, can have one label exactly when one value is the other followed by a space, the next facet's name and =; file cells never |
| CellLabels.LabelContinues | go/internal/extract/slice_facets.go:178-191 | Narrowing a cell appends to its label and changes nothing before |
| Truncation.DominatedTotal | go/internal/common/truncation.go:434-440 | A list with distinct identities that matches or exceeds another's loss identity by identity totals no less |
| Truncation.Reconciliation.UnexplainedDrift | go/internal/common/truncation.go:212-235 | Zero exactly inside the band churn explains; outside it, the distance to the band's nearer end |
| ChunkStore.ChunkWriter.WriteChunk | go/internal/common/writer.go:113-135 | In any directory: exactly when the 32-bit counter does not wrap, a chunk goes to a file that did not exist, past every chunk file, and joins the end of the log; when it wraps, the chunk goes to a negative index that is no chunk file, and the writer is no longer current |
| ChunkStore.SessionsPastTheLastIndex | go/internal/common/writer.go:23-53 | The documented promise fails on a directory with one file results.2147483647.jsonl: the second of two sessions overwrites the first one's only chunk |
| ChunkStore.WriteInNewSession | go/internal/common/writer.go:44-135 | There a new session writes results.-2147483648.jsonl and no chunk |
| ChunkStore.NextNameIsNew | go/internal/common/writer.go:60-111 | In any directory, cut-off and foreign chunk files included, the name after the highest index below 2^31-1 is new |
| ChunkStore.ChunkWriter.constructor | go/internal/common/writer.go:44-53 | A new writer stands at the highest index of whatever the directory holds |
| ChunkStore.TaskDir.HighestChunkIndex | go/internal/common/writer.go:60-76 | The largest index of any chunk file, or 0, in any directory |
| ChunkStore.ChunkIndexInvertsName | go/internal/common/writer.go:78-111 | Parsing inverts printing for every index in 1..2^31-1 and accepts no other |
| ChunkStore.ChunkNamingInverts | go/internal/common/writer.go:78-111 | The shipped naming has that property for every name, and a wrapped index prints as no chunk name |
| ChunkStore.AppendingOverwritesNothing | go/internal/common/writer.go:113-135 | A chunk past every chunk file is new, and the directory stays what it held and the chunks written since |
| ChunkStore.JsonlRoundTrip | go/internal/common/store.go:173-205 | Writing records as lines and reading them back is the identity exactly for records that are not blank, have no newline and no space around them |
| ChunkStore.UnterminatedLineIsRead | go/internal/common/store.go:173-205 | A last record without its newline is read like the others |
| ChunkStore.TrimRemovesSpace | go/internal/common/store.go:173-205 | Reading a line removes the space around it and nothing else |
| ChunkStore.ChunkFileNames | go/internal/common/store.go:101-145 | All chunk files of any directory, each once, in numeric order |
| ChunkStore.AppendedChunkIsReadLast | go/internal/common/store.go:101-145 | A chunk past every other is read last, and the others as before |
| ChunkStore.ExtensionReadsBack | go/internal/common/store.go:80-145 | Reading gives what the directory held at first, as before, and then every chunk written since, in write order |
| ChunkStore.NeighbourNames | go/internal/common/store.go:101-145 | The other .jsonl files, each once, sorted by name |
| ChunkStore.Records | go/internal/common/store.go:80-145 | What the chunk files of any directory hold, in numeric order, followed by what the other .jsonl files hold; for the writers of the model, everything they wrote, in write order, after what was there |
| Progress.ClockNeverUnderestimates | go/internal/common/progress_tracker.go:428-440 | A running task's remaining time is positive, never less than the expected duration leaves, and equal to it exactly during the first half |
| Progress.ClockFallsNoFasterThanTime | go/internal/common/progress_tracker.go:428-440 | It falls as time passes, never faster than the clock, across the seam between the two formulas |
| Progress.LateTaskKeepsShrinking | go/internal/common/progress_tracker.go:428-440 | In the second half the estimate strictly shrinks, in inverse proportion to the time taken, and never reaches zero |
| Progress.PhaseIsItsSlowest | go/internal/common/progress_tracker.go:449-459 | A phase's time is its slowest task's |
| Progress.PhasesAddUp | go/internal/common/progress_tracker.go:449-459 | However a plan is cut, its parts' times add up |
| Progress.EtaFallsNoFasterThanTime | go/internal/common/progress_tracker.go:442-459 | While only one phase's tasks run, the ETA falls, never faster than the clock |
| Progress.RemainingSeconds | go/internal/common/progress_tracker.go:449-459 | The sum over phases of each phase's slowest task |
| Progress.SpeedFactorIsBounded | go/internal/common/progress_tracker.go:351-381 | The blended speed factor stays within the bounds of the raw one |
| Progress.SpeedFactorFollowsEvidence | go/internal/common/progress_tracker.go:351-381 | 1 before anything completed, the clamped ratio once two minutes were expected to be done, and in between in proportion |
| Progress.Percent | go/internal/common/progress_tracker.go:511-527 | A percentage between 0 and 100, the elapsed share of the estimated total, and 100 when nothing is left |
| Progress.Tracker.Snapshot | go/internal/common/progress_tracker.go:502-538 | The reported percentage is the largest share seen so far and never passes 100; an ETA is known exactly when it is reportable |

## Left out

- HTTP, TLS, JSON decoding, logging and real time: a reply is items, a total or an error; a clock is a parameter.
- IssueSlicer.FetchProjectIssues: claims only lower bounds for degraded walks, because a fallback fetch can deliver issues already booked as lost. That issues of several seconds, some outside the root, stay above the depth backstop is stated one way (`Reaches` suffices); for issues of one second both ways.
- IssueSlicer.Slicer.ArtefactKeepsLoss: gives the condition on the walk's own records (no two losing ones share an identity), and `CellLabelsCollide` when two cells' labels can be equal; that all records of one walk differ in window, reason or label is not put together.
- IssueServer.HonestFacets: does not cover the multi-quality taxonomy, whose cells overlap by design; `Slicer` follows that branch too, but exactness needs one value per facet. Type and severity buckets are taken as complete; rules, directories and files may be cut off.
- IssueSlicer.Slicer.ProbeFacet: does not model `probeMQRMode`; the mode is a field of the server.
- RawClient.PageReply: takes a total to be non-negative; a negative one makes the source fail on a slice allocation.
- RawClient.Client: does not model several tasks sharing the learned page sizes; nor `finishPaginated`, which emits the clamp record of fetches outside the slicer.
- Windows.IssueWindow: keeps bounds as seconds; the date format sent to the server is not modelled.
- RateLimiter.Step: cancellation takes effect only while a waiter sleeps, as in the source's select; the throttling transport around the limiter is not modelled.
- Retry.RoundTrip: does not model jitter or closing bodies; a wait cut short by cancellation returns a drained body, as in the source. The other requests that share the gate are a parameter.
- Planner.PlanPhasesExcluding: has phases as sets; the sorting by name inside a phase is left out, as are editions and the choice of targets in `buildPlan`.
- Resume.Apply: keeps each task's items fixed across attempts; a hard kill before the failed projects are saved, disk operations that fail (among them `ClearDone` inside `endOutage`), items skipped for missing privileges (403, 404), and two task names that sanitise to one directory are outside it. The loops of `helpers.go` and `tasks_projectdata.go` appear as steps, since their items run concurrently.
- Truncation.RecordIdentity: is a tuple where the source joins its parts with NUL; the time of observation, the unreadable-file overwrite and the rule that audits alone write no file are left out.
- ChunkStore.TaskDir: has no sub-directories or failing reads; a write that dies part-way appears as what a later session finds. Records are text, trimmed as Unicode text.
- ChunkStore.ChunkWriter: is not shared; two writers at work on one directory at once are outside `Current`.
- Progress.SpeedFactor: computes over reals; float64 rounding, the summing of durations, the seeds and the pseudo-tasks' hosts are left out (a task's view already holds its scaled duration).
- `DynamicGate`, the migration's concurrency controller and the history subsampling: they would add smaller results of the same kinds.
- Commands, configuration files, GUI, reports and log parsing: presentation and precedence rules.
