# Verified models of Claw's stateful components

Claw is an executive assistant for real-estate agents: a server with a coordinator, agents, memory files and
gateways, and a mobile app. This project models the components of it that carry state and algorithms, and
proves what they are for. The proofs are written for the Dafny verifier; `dafny verify dfyconfig.toml` checks
the whole project.

| file | component |
|---|---|
| `RouteModel.dfy`, `RoutePlanner.dfy`, `RouteOptimizer.dfy`, `RouteTheorems.dfy`, `RouteOutcome.dfy` | tour scheduler: the greedy planner with fixed-time anchors, the second pass over the times, the accounting, what holds of every planned tour, and the answer said of matrix cells and stops alone |
| `JsText.dfy`, `SseReader.dfy` | reader of server-sent `data:` lines, for every cut into chunks |
| `SectionText.dfy`, `SectionFrame.dfy`, `SectionOutcome.dfy` | Markdown section editing, with the matching and replacement rules of regular expressions that the code relies on, what updating one section does to the others, and the result said of the text alone |
| `DistributedLock.dfy` | token locks with a time to live, in memory and on Redis |
| `MemoryWrites.dfy`, `MemoryManager.dfy` | locked memory files: writers interleaving at every await, and the write as a method |
| `SlidingWindow.dfy`, `RateLimiter.dfy`, `AuthLimiter.dfy` | sliding-window limiters: the bound, the server-side refinement, the invisible cleanup |
| `Approval.dfy` | approvals: split, pending map, timers, execution, and the phone's decisions, as one system |
| `TokenRotation.dfy` | refresh tokens: single-flight client composed with single-use server |
| `OfflineQueue.dfy`, `OfflineDrains.dfy` | offline message queue: the drain, its termination, and drains that interleave |
| `GmailIngest.dfy`, `GmailOverlap.dfy` | Gmail ingest: one job at a time with failures anywhere, and overlapping jobs |
| `WsSessions.dfy` | WebSocket registry with its two indexes |

Code that changes state step by step is modelled as classes, methods and loops that are proved against
specification functions; the main results are lemmas about those functions. For each main operation some of them say
the outcome in terms of the inputs alone, with literal texts and numbers. Protocols whose steps interleave at
`await` are transition systems `Next(state, step)`; their lemmas hold for every finite run. Times are integer
milliseconds, uuids and random tokens are fresh numbers, and answers of Gmail, Maps, the file system, secure
storage and HTTP are arbitrary inputs that may fail.

## Where the code differs from its description, or from what one would expect

- The comment at `src/features/routing/route-optimizer.ts:142-150` says that inserted stops do not push a fixed
  stop late. The code allows five minutes (line 201); `DelayBound` shows that this allowance does not add up over
  stops or gaps.
- Section content is used as a replacement string (`src/memory/memory-manager.ts:159-163`), so `$1`, `$&` and
  the like are expanded: a price of `$1,200` is altered. `KeptExactlyWhenInert` gives the exact class of safe
  contents.
- A header in an unterminated last line shadows the section that is appended behind it (`ReadAfterAppend`).
- A section name is used as a regular expression as it is: a name with `$` or `^` is never found again, so each update
  appends a further copy (`AnchoredNameIsNeverFound`).
- The phone sends item numbers, the execution reads them as positions in the reviewed batch.
  `NumberNamesItemExactly` gives the exact condition under which both agree.
- When clearing the secure storage fails (`apps/mobile/lib/api.ts:25`), the used refresh token stays in the
  store and is sent again (`FailedClearResends`); `SentOnceExactly` gives the exact condition.
- The Gmail worker runs three jobs at once (`src/agents/ops/gmail-ingest-job.ts:365`). The duplicate check and
  the insert are separate statements, so overlapping jobs of one tenant can call the agent twice for a message
  (`RaceAllowsTwoDispatches`), and only those can (`TwoDispatchesNeedARace`).
- A message whose call of the agent raises is recorded, not delivered, and never tried again
  (`DeliveredExactlyWhenItsOneCallSucceeds`).
- Nothing keeps a second drain of the offline queue from starting while one is on its way (the effects at
  `apps/mobile/components/ChatSheet.tsx:80-84` start one at every reconnect). Then a message can be accepted twice or
  refused four times (`ReconnectSendsTwice`, `ReconnectRefusesFourTimes`, `OverlapAllowsTwoAcceptedPosts`).
- Updating a section whose header line is directly followed by the next header deletes that next section
  (`DirectlyFollowingSectionIsLost`), and a section is found by any header it is a prefix of;
  `OtherSectionStaysExactly` gives the exact condition.
- A memory file is locked by the path as requested, not by the file it resolves to: two spellings of a path do not
  exclude each other (`OneWritePerFileExactly`).
- Registering a registered socket again leaves its old session in the tenant's set for good (`AddingKeeps`).
- Asked what is left of a negative limit for an unused key, the in-memory limiter answers with the negative
  number and the server-side one with 0 (`SameAnswersExactly`).
- `apps/mobile/lib/offline-queue.ts:10` speaks of dropping messages with more retries than the maximum; the code drops them at
  the maximum, after exactly three refused POSTs when drains do not overlap.

## Model

| member | source | states |
|---|---|---|
| RoutePlanner.BuildOrderedIndices | src/features/routing/route-optimizer.ts:151-249 | the loops produce the one greedy order described in RouteModel (anchors by time, gaps filled with the nearest stop that fits, tail nearest first) and warn about exactly the late anchors |
| RoutePlanner.FillGap | src/features/routing/route-optimizer.ts:184-214 | inserting stops before an anchor keeps the plan greedy, touches no anchor and ends only when no unvisited flexible stop fits any more |
| RoutePlanner.NearestFitting | src/features/routing/route-optimizer.ts:188-205 | the scan finds the closest stop that still reaches the anchor within five minutes, smallest index first, or there is none |
| RoutePlanner.AppendTail | src/features/routing/route-optimizer.ts:228-246 | the tail takes the nearest remaining stop each time and leaves none out |
| RoutePlanner.NearestRemaining | src/features/routing/route-optimizer.ts:233-238 | the tail scan finds the closest remaining stop |
| RouteTheorems.DelayBound | src/features/routing/route-optimizer.ts:180-226 | the departure from every anchor is at most five minutes later than in the tour of the anchors alone, however many stops and gaps were filled |
| RouteTheorems.LateAnchorsExact | src/features/routing/route-optimizer.ts:216-221 | an anchor is warned about exactly when its final scheduled time is more than five minutes past its fixed time |
| RouteTheorems.LateGapIsEmpty | src/features/routing/route-optimizer.ts:184-221 | a warned anchor has no flexible stop in the gap before it |
| RouteTheorems.NoWarningWhenAnchorsFit | src/features/routing/route-optimizer.ts:180-226 | if the anchors alone can all be reached on time, filling the gaps raises no warning |
| RouteTheorems.GapStopFits | src/features/routing/route-optimizer.ts:200-204 | a flexible stop directly before an anchor still lets it be reached within the grace time |
| RouteTheorems.GapIsFull | src/features/routing/route-optimizer.ts:184-214 | gap filling is maximal: each flexible stop visited after an anchor would have made that anchor late |
| RouteTheorems.AnchorsInOrder | src/features/routing/route-optimizer.ts:161-165 | anchors are visited in time order, ties in input order, and never start before their fixed time |
| RouteTheorems.AnchorIsNext | src/features/routing/route-optimizer.ts:180-226 | an anchor is visited only as the earliest one left, and only when nothing more fits before it |
| RouteTheorems.IsPermutation | src/features/routing/route-optimizer.ts:151-249 | every geocoded stop occurs in the order exactly once |
| RouteTheorems.GreedyIsUnique | src/features/routing/route-optimizer.ts:151-249 | the description fixes the order: no input has two greedy orders |
| RouteTheorems.TimeIsConserved | src/features/routing/route-optimizer.ts:253-304 | end minus start is driving plus stays plus waiting, for every order |
| RouteTheorems.NoOverlap | src/features/routing/route-optimizer.ts:263-274 | the next start leaves room for the stay and the drive |
| RouteOptimizer.BuildOrderedStops | src/features/routing/route-optimizer.ts:253-287 | the second pass gives every stop the time of the simulation, which is the planning clock |
| RouteOptimizer.SumMatrix | src/features/routing/route-optimizer.ts:291-304 | the totals are the drive seconds and meters along the order |
| RouteOptimizer.FallbackSequential | src/features/routing/route-optimizer.ts:308-333 | input order, sequence numbers 0..n-1, each start after the stay before it and not before its slot |
| RouteOptimizer.AppendUngeocoded | src/features/routing/route-optimizer.ts:108-126 | stops without coordinates follow back to back, each starting when the one before ends |
| RouteOptimizer.PlacementIsPermutation | src/features/routing/route-optimizer.ts:71-73 | planned stops followed by those without coordinates are a permutation of the input positions |
| RouteOptimizer.ReportedMinutesAreClose | src/features/routing/route-optimizer.ts:129-131 | without anchors the reported minutes are within half a minute of the elapsed time |
| RouteOptimizer.PlanRoute | src/features/routing/route-optimizer.ts:103-137 | the served request: a greedy plan with the simulated times, a permutation of all stops, exact totals and warnings |
| RouteOptimizer.TenthsOfMiles | src/features/routing/route-optimizer.ts:134 | the reported distance is the tenth of a mile nearest to the meters, halves up |
| RouteOptimizer.OptimizeRoute | src/features/routing/route-optimizer.ts:46-138 | which of the three answers is given when, and what each contains |
| RouteOutcome.EntryStarts | src/features/routing/route-optimizer.ts:253-287 | each entry is reached by the drive seconds of the matrix cell from the stop before (the origin for the first), starts then or at its slot, and carries the fields of its stop |
| RouteOutcome.EntryStartsUndriven | src/features/routing/route-optimizer.ts:262-272 | a missing cell is no drive |
| RouteOutcome.GapChoice | src/features/routing/route-optimizer.ts:184-214 | before an anchor the stop taken leaves it at most five minutes late by the cells of the matrix, and of the later stops that would it has the shortest drive, first in the input on ties |
| RouteOutcome.AnchorChoice | src/features/routing/route-optimizer.ts:180-226 | an anchor is taken as the earliest left, and every stop without a slot that is left would make it more than five minutes late |
| RouteOutcome.TailChoice | src/features/routing/route-optimizer.ts:228-246 | behind the last anchor the stop taken has the least drive seconds of those remaining, first in the input on ties |
| RouteOutcome.WarnedExactly | src/features/routing/route-optimizer.ts:216-221 | one warning, with address and slot, for each entry that starts more than five minutes after its slot, in visiting order and behind the geocoding warnings |
| RouteOutcome.ReportedTotals | src/features/routing/route-optimizer.ts:129-134 | the reported minutes and tenths of a mile are the rounded sums of the drive seconds, stays and meters of the cells along the order |
| RouteOutcome.ServedStops | src/features/routing/route-optimizer.ts:71-126 | exactly the stops with coordinates are planned; the others follow in input order, each starting when the stay before it is over |
| RouteOutcome.CountsUngeocoded | src/features/routing/route-optimizer.ts:75-77 | the warning about stops without coordinates counts them |
| RouteOutcome.SequentialEntry | src/features/routing/route-optimizer.ts:308-333 | without a plan each stop starts when the stay before it is over, or at its slot |
| SseReader.ReadSseLines | src/llm/sse-reader.ts:13-59 | the reader is unlocked again however the reading ends: completed, aborted, failed, or abandoned by the consumer; what was yielded is as in ReadAll |
| SseReader.ReadAll | src/llm/sse-reader.ts:19-55 | however the text is cut into chunks, a completed run yields the values of the whole text, one cut short the complete blocks, an abandoned one exactly the values taken, each a prefix of the values of the whole text |
| SseReader.YieldBlock | src/llm/sse-reader.ts:38-46 | the values of one block follow those already yielded, up to the one at which the consumer stops |
| SseReader.OneMoreChunk | src/llm/sse-reader.ts:31-47 | carrying the last fragment over to the next chunk loses and repeats no block |
| SseReader.PartsConcat | src/llm/sse-reader.ts:35-36 | splitting the carried fragment plus a chunk continues the split of the whole text |
| SseReader.SplitKeepsValues | src/llm/sse-reader.ts:35-46 | splitting on blank lines first and newlines second yields the values of the whole text |
| SseReader.CompleteIsPrefix | src/llm/sse-reader.ts:38-46 | what has been yielded so far is a prefix of what any continuation yields |
| SseReader.EventRoundTrip | src/llm/sse-reader.ts:39-43 | an event carries its value exactly when it is not empty, does not end in white space and holds no newline |
| SseReader.YieldsAreSendable | src/llm/sse-reader.ts:39-43 | whatever the text, only such values are yielded |
| SseReader.StreamRoundTrip | src/llm/sse-reader.ts:13-59 | a stream of events carries its values exactly when each of them is sendable |
| SseReader.LineYields | src/llm/sse-reader.ts:38-45 | whatever white space a line ends in, it yields what follows its first six characters if they are data: and a blank, and nothing otherwise |
| SseReader.EventCarries | src/llm/sse-reader.ts:38-45 | an event carries exactly the values that are not empty, hold no newline and do not end in one of the listed code points |
| SseReader.VisibleEndArrives | src/llm/sse-reader.ts:40-42 | a value that ends in a visible ASCII character arrives as it was sent |
| SseReader.LineEndsDoNotMatter | src/llm/sse-reader.ts:40-42 | a carriage return, blank or tab before a newline changes no value |
| JsText.WhitespaceCodes | src/llm/sse-reader.ts:41 | trimming removes exactly these code points |
| SectionText.FindFinds | src/memory/memory-manager.ts:136-145 | the lazy pattern finds the leftmost header line with the body up to the next section, or there is no header |
| SectionText.MatchIsUnique | src/memory/memory-manager.ts:136-145 | that description has one match |
| SectionText.ReplaceInserts | src/memory/memory-manager.ts:147-163 | whatever the content, an update exchanges the body of the section for the expanded content and writer comment, and nothing else |
| SectionText.ReplaceVerbatim | src/memory/memory-manager.ts:147-163 | content without references is inserted as given and everything else is kept |
| SectionText.ReplaceAlters | src/memory/memory-manager.ts:159-163 | any other content (a price such as $1,200) is altered in some text |
| SectionText.KeptExactlyWhenInert | src/memory/memory-manager.ts:159-163 | content reaches every text as given exactly when it holds no replacement reference |
| SectionText.UpdatedMatch | src/memory/memory-manager.ts:147-163 | after an update that inserts no section of its own the section stands between the same header and the same rest |
| SectionText.ReadAfterUpdate | src/memory/memory-manager.ts:136-163 | for every content: a section reads back as what was inserted with its writer comment, trimmed, exactly when that starts no section of its own; inert content is inserted as it is |
| SectionText.LastUpdateWins | src/memory/memory-manager.ts:147-163 | updating twice equals only the second update exactly when the first inserted no section of its own and the second does not refer to the matched text, or finds the same text |
| SectionText.ExpansionsAgree | src/memory/memory-manager.ts:159-163 | two expansions that differ only in the matched text agree exactly when it is not referenced |
| SectionText.AnchoredNameIsNeverFound | src/memory/memory-manager.ts:147-167 | a section with $ or ^ in its name is never found: each update appends a further copy and reading gives nothing |
| SectionText.ReadAfterAppend | src/memory/memory-manager.ts:165-166 | an appended section reads back exactly when the old text did not mention its header in an unfinished last line and the content starts no section of its own |
| SectionFrame.OtherSectionStays | src/memory/memory-manager.ts:136-163 | two sections that lie apart: updating one leaves the other as it reads, unless the other lies behind and the new body mentions it |
| SectionFrame.OtherSectionStaysExactly | src/memory/memory-manager.ts:136-163 | an update that changes a section leaves another section whose header occurs once as it is exactly when the two lie apart |
| SectionFrame.DirectlyFollowingSectionIsLost | src/memory/memory-manager.ts:155-163 | a section whose header follows directly behind the updated header line is deleted with the old body |
| SectionFrame.MissingSectionStaysMissing | src/memory/memory-manager.ts:136-163 | a section that is not in the text does not come into it by an update of another one, unless it is mentioned |
| SectionOutcome.UpdateWrites | src/memory/memory-manager.ts:147-163 | content without a dollar sign takes the place of the body, followed by a comment with stamp and writer, and nothing else changes; a read gives the body, trimmed; names match without regard to case, underscores are blanks |
| SectionOutcome.AppendWrites | src/memory/memory-manager.ts:165-166 | in a text without sections the header with blanks for underscores, the content and the comment are appended to the right-trimmed text |
| SectionOutcome.ReferencesStandFor | src/memory/memory-manager.ts:157-163 | what each dollar reference in a content is replaced by |
| SectionOutcome.CharacterRules | src/memory/memory-manager.ts:154-157 | which characters a character of a section name matches, by code point, with the i flag and without the u flag |
| SectionOutcome.CoveredCharacters | src/memory/memory-manager.ts:154-157 | the characters of section names that the theorems cover, by code point |
| SectionOutcome.UpdateExample | src/memory/memory-manager.ts:136-163 | an update and a read of a concrete text |
| DistributedLock.InMemoryDistributedLock.Acquire | src/memory/distributed-lock.ts:16-23 | new lock table and answer of an acquire |
| DistributedLock.InMemoryDistributedLock.Release | src/memory/distributed-lock.ts:25-27 | only the matching token frees the key |
| DistributedLock.RedisDistributedLock.Acquire | src/memory/distributed-lock.ts:49-54 | SET NX EX is the same step with the time to live rounded up to seconds |
| DistributedLock.RedisDistributedLock.Release | src/memory/distributed-lock.ts:39-45 | the compare-and-delete script is the same release |
| DistributedLock.TtlSeconds | src/memory/distributed-lock.ts:51 | the seconds are never shorter than the requested milliseconds and less than a second longer |
| DistributedLock.MutualExclusion | src/memory/distributed-lock.ts:16-27 | over every run at most one unexpired unreleased grant per key exists |
| DistributedLock.AcquireSucceedsExactly | src/memory/distributed-lock.ts:17-22 | an acquire succeeds exactly when no grant for the key is live |
| DistributedLock.LiveUntilReleasedOrExpired | src/memory/distributed-lock.ts:25-27 | stale or foreign releases, acquires and purges leave a live grant and its lock intact |
| DistributedLock.GrantRunsOut | src/memory/distributed-lock.ts:16-27 | an acquire that finds no live grant takes the key for exactly its time to live; its release frees it at once; a purge drops exactly what is past its time |
| MemoryWrites.OneWritePerPath | src/memory/memory-manager.ts:58-109 | in a run in which no write outlives its lock, at most one write per path is between grant and release |
| MemoryWrites.NoUpdateIsLost | src/memory/memory-manager.ts:58-134 | each file equals the applied edits replayed in lock order, each meeting the file its operation needs, and each edit is the one its request asks for |
| MemoryWrites.EditsAreRequested | src/memory/memory-manager.ts:111-134 | in every run, timely or not, a write edits its file as asked or not at all |
| MemoryWrites.SuccessMeansApplied | src/memory/memory-manager.ts:92-97 | a reported success is in the history of its file with the edit it asked for; a write without the lock did nothing |
| MemoryWrites.RefusedChangesNothing | src/memory/memory-manager.ts:61-71 | a refused acquire is final: whatever happens later the write reports failure, never stands in a lock order and never edits anything |
| MemoryWrites.OneWritePerFileExactly | src/memory/memory-manager.ts:59-62 | writes on a set of request paths exclude each other per resolved file, in every timely run, exactly when no two of the paths resolve to one file |
| MemoryWrites.LateCreateOverwrites | src/memory/memory-manager.ts:111-121 | a run from the start in which the first of two creates outlives its lock: both are written and the first text is gone; the run is not timely |
| MemoryWrites.StepKeepsInv | src/memory/memory-manager.ts:190-205 | every step of every writer keeps the lock, token, file and history invariant |
| MemoryWrites.AppendsAddUp | src/memory/memory-manager.ts:123-127 | in every timely run whose writes to a path are all appends the file is its old text followed by one entry per writer that wrote, in lock order: comment with stamp and writer, then the content |
| MemoryWrites.CreatedOnce | src/memory/memory-manager.ts:108-121 | in every timely run of creates of a missing file at most one writes, and the file is its content and the comment of its writer |
| MemoryWrites.GrantLastsFiveSeconds | src/memory/memory-manager.ts:190-197 | a grant keeps others out for five seconds and no longer |
| MemoryWrites.TokensDiffer | src/memory/distributed-lock.ts:16-27 | over every run, timely or not, the locks of different paths never carry the same token |
| MemoryManager.Manager.Write | src/memory/memory-manager.ts:58-109 | refused and unchanged while locked; otherwise the file becomes what its operation makes of it and the path is unlocked whatever failed |
| MemoryManager.Manager.AcquireLock | src/memory/memory-manager.ts:190-197 | the granted token is recorded, a refused acquire changes nothing |
| MemoryManager.Manager.ReleaseLock | src/memory/memory-manager.ts:199-205 | release goes by the token recorded for the path, which is forgotten |
| MemoryManager.Manager.CreateFile | src/memory/memory-manager.ts:111-121 | an existing file is never overwritten |
| MemoryManager.Manager.AppendToFile | src/memory/memory-manager.ts:123-127 | the entry is added behind the old text |
| MemoryManager.Manager.UpdateSection | src/memory/memory-manager.ts:129-134 | the section is replaced in the file that was read |
| MemoryManager.WriteIsARun | src/memory/memory-manager.ts:58-109 | a write with nothing in between does in the interleaving system what the method does, to its file, the other files, the locks, the recorded tokens and its result |
| MemoryManager.RefusedWriteIsARun | src/memory/memory-manager.ts:61-71 | and so does a refused one |
| MemoryManager.WrittenText | src/memory/memory-manager.ts:108-134 | the exact text each successful operation leaves |
| MemoryManager.LockKeyIsInjective | src/memory/memory-manager.ts:190-191 | different paths have different locks |
| RateLimiter.InMemoryRateLimiter.CheckLimit | src/middleware/rate-limiter.ts:29-68 | answer and new state of a check |
| RateLimiter.InMemoryRateLimiter.GetRemainingCalls | src/middleware/rate-limiter.ts:74-81 | remaining calls, without a change of state |
| RateLimiter.RedisRateLimiter.CheckLimit | src/middleware/rate-limiter.ts:94-145 | the script as one step, including the key expiry |
| RateLimiter.RedisRateLimiter.GetRemainingCalls | src/middleware/rate-limiter.ts:147-153 | remaining calls after pruning |
| RateLimiter.SplitCountIsBracketed | src/middleware/rate-limiter.ts:147-153 | with other clients between the pruning and the counting, the count is at least the calls that still count and at most those allowed since a minute before the pruning |
| RateLimiter.KeyIsInjective | src/middleware/rate-limiter.ts:35 | keys of different tenants or integrations never collide when integration names hold no colon |
| RateLimiter.ListTracksHistory | src/middleware/rate-limiter.ts:44-66 | the pruned list counts exactly the allowed calls of the last minute |
| RateLimiter.RefusedExactlyWhenFull | src/middleware/rate-limiter.ts:44-67 | a call is refused exactly when the last minute holds limit allowed calls |
| RateLimiter.AtMostLimitPerMinute | src/middleware/rate-limiter.ts:29-68 | every half-open minute of every run holds at most limit allowed calls |
| RateLimiter.SameAnswersExactly | src/middleware/rate-limiter.ts:94-153 | on the same calls both limiters answer alike, whenever due keys are dropped; the exception is exactly a negative limit asked of an unused key |
| RateLimiter.ServerAtMostLimitPerMinute | src/middleware/rate-limiter.ts:94-145 | the bound holds for the server-side limiter too |
| RateLimiter.StepKeepsRelated | src/middleware/rate-limiter.ts:101-110 | the two-minute expiry never removes an entry that still counts |
| RateLimiter.AnswerInWords | src/middleware/rate-limiter.ts:29-145 | both limiters allow a check exactly when the last minute holds fewer allowed calls than the limit set last for the integration, else the one passed, else 60, and report what is left |
| RateLimiter.PassedLimitDecides | src/middleware/rate-limiter.ts:34-122 | with nothing set, the limit passed decides, for both limiters |
| RateLimiter.SixtyByDefault | src/middleware/rate-limiter.ts:29-122 | with nothing set and nothing passed sixty calls a minute are allowed, by both limiters |
| RateLimiter.SetLimitDecides | src/middleware/rate-limiter.ts:34-122 | after setLimit the checks of the integration go by that limit whatever they pass, for both limiters |
| RateLimiter.AtMostInWords | src/middleware/rate-limiter.ts:29-68 | of more than n allowed checks of a key the last comes at least a minute after the first, when n is the effective limit |
| RateLimiter.ServerAtMostInWords | src/middleware/rate-limiter.ts:94-145 | the same for the answers of the server-side limiter |
| RateLimiter.LeftInWords | src/middleware/rate-limiter.ts:74-153 | what is left is counted against the limit passed, or 60, whatever has been set |
| RateLimiter.KeyLivesTwoMinutes | src/middleware/rate-limiter.ts:107-110 | an allowed call lets the server keep the key for two minutes |
| RateLimiter.WarnsFromAFifth | src/middleware/rate-limiter.ts:53-62 | the warning is set by an allowed check that found at most a fifth of the limit left, rounded up, taken back by one that found more, and left alone by a refused one |
| SlidingWindow.WindowBound | src/middleware/rate-limiter.ts:44-66 | admitting only below the limit bounds every window, wherever it starts |
| AuthLimiter.AuthAttempts.CheckAuthRateLimit | src/index.ts:382-396 | decision and new store of an attempt, cleanup included |
| AuthLimiter.AuthAttempts.Cleanup | src/index.ts:390-394 | the deleting loop removes exactly the addresses whose attempts are all out of the window |
| AuthLimiter.CleanupChangesNoDecision | src/index.ts:389-394 | with and without the cleanup every decision of every run is the same |
| AuthLimiter.RefusedExactlyWhenFull | src/index.ts:385-386 | an attempt is refused exactly when the last 15 minutes hold 20 allowed ones |
| AuthLimiter.AtMostTwentyPerWindow | src/index.ts:365-396 | every half-open quarter of an hour holds at most 20 allowed attempts per address |
| AuthLimiter.CheckInNumbers | src/index.ts:365-396 | twenty attempts in a quarter of an hour; above ten thousand addresses an allowed check drops exactly those without a recent attempt |
| AuthLimiter.RunsAreChecks | src/index.ts:382-396 | each call of a run is one check on the store the earlier ones left, with the cleanup or without |
| Approval.Split | src/coordinator/coordinator.ts:315-325 | the loop computes the automatic and the reviewed items |
| Approval.SplitIsPartition | src/coordinator/coordinator.ts:318-325 | the split loses no item and invents none |
| Approval.OnlyAutoItems | src/coordinator/coordinator.ts:319-321 | only items whose setting is auto and that do not always need review go out at once |
| Approval.Execute | src/coordinator/coordinator.ts:73-87 | one dispatch per approving decision that names a batch position, in order |
| Approval.ApprovalManager.CreateApprovalRequest | src/coordinator/approval.ts:55-70 | the request is pending before its timers exist |
| Approval.ApprovalManager.ScheduleTimers | src/coordinator/approval.ts:193-212 | reminder only before the expiry, expiry timer always |
| Approval.ApprovalManager.ProcessApprovalResponse | src/coordinator/approval.ts:77-94 | the first answer takes the request out; it is executed only when in time |
| Approval.ApprovalManager.CleanupApproval | src/coordinator/approval.ts:214-222 | request and timers go together |
| Approval.StepKeepsInv | src/coordinator/approval.ts:55-105 | every step of messages, answers, timers and executions keeps the invariant |
| Approval.EveryDispatchIsAuthorized | src/coordinator/coordinator.ts:73-126 | every dispatch is of an item that some inbound message of the run brought in while its setting was auto, never a financial action, or comes from an approval in the first answer, in time |
| Approval.ExecutedAtMostOnce | src/coordinator/approval.ts:77-94 | what was dispatched for an approval is exactly what the processed part of its one answer approves |
| Approval.LaterAnswersAreIgnored | src/coordinator/approval.ts:78-82 | answers after the first change nothing |
| Approval.TimersAreNeverEarly | src/coordinator/approval.ts:193-222 | no timer ends an approval before its expiry, and each scheduled one has an expiry timer |
| Approval.ApprovalStore.RecordDecision | apps/mobile/store/approvals.ts:52-56 | the last decision for an index replaces earlier ones, others stand |
| Approval.EachPositionDispatchedOnce | apps/mobile/store/approvals.ts:52-56 | over every run: when the first answer holds one decision per index, no batch position of the approval is dispatched twice |
| Approval.OnePerIndexDispatchesOnce | apps/mobile/store/approvals.ts:52-56 | a list with one decision per index approves each batch position at most once |
| Approval.NumberNamesItemExactly | src/coordinator/synthesizer.ts:73-93 | item numbers name the right batch positions exactly when no automatic item stood before a reviewed one |
| Approval.SplitInWords | src/coordinator/coordinator.ts:316-325 | an item is automatic exactly when its setting is auto and its type is not one of the two that always need review; both lists keep the order |
| Approval.InboundInWords | src/coordinator/coordinator.ts:316-345 | an inbound message sends what it may, in order and under the settings of the moment, and puts the rest up for review as one batch in order |
| Approval.AnswerWithinADay | src/coordinator/approval.ts:55-100 | a first answer is executed exactly within 24 hours of the request |
| Approval.TimersInNumbers | src/coordinator/approval.ts:194-212 | the reminder after four hours if the request still stands then, the expiry timer for its expiry |
| Approval.CreateInWords | src/coordinator/approval.ts:55-70 | the batch that waits longest becomes a pending request under a new id, for 24 hours |
| Approval.DueTimerEnds | src/coordinator/approval.ts:193-222 | a due expiry timer ends its request and both timers; scheduling arms it |
| Approval.AnswerIsExecuted | src/coordinator/coordinator.ts:73-87 | an answer in time, executed to its end, has dispatched every approved position in order and nothing else |
| Approval.ReviewedItemGoesOut | src/coordinator/coordinator.ts:73-126 | a run in which one item is reviewed, approved and dispatched |
| TokenRotation.RefreshTokens.RotateRefreshToken | src/auth/token-service.ts:72-91 | a live token buys one successor for the same user and dies; any other token buys nothing and changes nothing |
| TokenRotation.RefreshTokens.RevokeReturningRow | src/auth/token-service.ts:77-88 | the atomic update revokes and returns the row exactly when the token is live |
| TokenRotation.RefreshTokens.IssueTokenPair | src/auth/token-service.ts:43-62 | the stored token is live for 90 days |
| TokenRotation.RefreshTokens.RevokeAllTokens | src/auth/token-service.ts:96-102 | ends exactly the sessions of the user |
| TokenRotation.EachTokenRotatedOnce | src/auth/token-service.ts:72-91 | over all runs the server rotates each token at most once |
| TokenRotation.AtMostOneLiveToken | src/auth/token-service.ts:72-91 | of the tokens that descend from one sign-in at most one is live |
| TokenRotation.OneChain | src/auth/token-service.ts:43-91 | the tokens of a sign-in form one chain |
| TokenRotation.SentOnceExactly | apps/mobile/lib/api.ts:13-34 | the app sends no refresh token twice exactly when no refresh starts on tokens not written since the last one |
| TokenRotation.EachTokenSentOnce | apps/mobile/lib/api.ts:13-34 | the single flight suffices as long as clearing the secure storage does not fail |
| TokenRotation.HeldTokenIsUnused | apps/mobile/lib/api.ts:13-34 | client and server composed: between refreshes the app holds a token that the server has not revoked |
| TokenRotation.FailedClearResends | apps/mobile/lib/api.ts:24-30 | a failing clear leaves the used token in place and the next call sends it again |
| TokenRotation.LivesNinetyDays | src/auth/token-service.ts:44-58 | an issued token can be used for exactly ninety days unless it is revoked |
| TokenRotation.CallRefreshes | apps/mobile/lib/api.ts:14-24 | a call starts a refresh exactly when none is on its way and the access token has less than a minute left |
| TokenRotation.RefreshRenews | apps/mobile/lib/api.ts:14-34 | a refresh from end to end: the held token is sent once and revoked, its successor of the same user and sign-in is stored by both sides and good for ninety days |
| TokenRotation.PresentedToken | src/auth/token-service.ts:72-91 | a presented token is rotated exactly when it is stored, unrevoked and not past its end |
| TokenRotation.LogoutInWords | src/auth/token-service.ts:96-102 | logging out everywhere ends the tokens of that user and no others |
| TokenRotation.AppInWords | apps/mobile/lib/api.ts:18-47 | what each answer and each storage result, failing or not, does to the session the app holds |
| OfflineQueue.Queue.Drain | apps/mobile/lib/offline-queue.ts:12-43 | the loop settles the batch item by item; with nothing in between, new queue and POSTs are those of the specification |
| OfflineQueue.Queue.Enqueue | apps/mobile/lib/db.web.ts:86-95 | replace by correlation id or append; ids stay distinct |
| OfflineQueue.Queue.RemoveFromQueue | apps/mobile/lib/db.web.ts:102-104 | exactly that message goes |
| OfflineQueue.Queue.IncrementRetry | apps/mobile/lib/db.web.ts:106-113 | exactly that message is counted up |
| OfflineQueue.EnqueueLooks | apps/mobile/lib/db.web.ts:86-95 | what enqueuing changes for each id |
| OfflineQueue.TimeOrderIsStable | apps/mobile/lib/db.web.ts:97-100 | the batch order is sorted by creation time and keeps queue order among equals |
| OfflineQueue.DrainInTimeOrder | apps/mobile/lib/offline-queue.ts:16-41 | in time order a drain rewrites the first twenty messages and nothing else |
| OfflineQueue.DrainLooks | apps/mobile/lib/offline-queue.ts:17-41 | what one drain does to one message and to its POSTs |
| OfflineQueue.BatchInWords | apps/mobile/lib/offline-queue.ts:16-18 | a drain takes the twenty oldest messages, or all if there are no more |
| OfflineQueue.EveryDrainMakesProgress | apps/mobile/lib/offline-queue.ts:12-43 | every connected drain of a non-empty queue strictly lowers the sum of four minus retries, by one or more per message taken |
| OfflineQueue.QueueEmpties | apps/mobile/lib/offline-queue.ts:12-43 | with no new messages n messages are gone after four whole drains per started twenty, whatever the server answers |
| OfflineQueue.FateStep | apps/mobile/lib/offline-queue.ts:18-41 | one accepted, refused or skipped POST takes a message from one lawful history to the next |
| OfflineDrains.LeavesOnlyWhenSentOrThreeTimesRefused | apps/mobile/lib/offline-queue.ts:16-42 | with drains interleaving at every await: while no two drains have the message to do at once and it is not enqueued anew meanwhile, it is sent at most three times and leaves only after its one accepted POST or after exactly three refused ones |
| OfflineDrains.RunKeepsFate | apps/mobile/lib/offline-queue.ts:16-42 | the same for any initial retry count, with the count of every waiting message |
| OfflineDrains.OneDrainAtATimeIsEnough | apps/mobile/lib/offline-queue.ts:12-43 | the guard a caller can check: if a drain begins only when every earlier one is through and ids are fresh, at most one POST of each message is accepted |
| OfflineDrains.OverlapAllowsTwoAcceptedPosts | apps/mobile/lib/offline-queue.ts:16-42 | whenever two drains both still have to send a message, the run can go on to two accepted POSTs of it |
| OfflineDrains.ReconnectSendsTwice | apps/mobile/lib/offline-queue.ts:12-36 | a run in which a reconnect starts a second drain and both have the message accepted |
| OfflineDrains.ReconnectRefusesFourTimes | apps/mobile/lib/offline-queue.ts:17-41 | a run in which a message with two refusals comes to four |
| OfflineDrains.WholeDrainIsARun | apps/mobile/lib/offline-queue.ts:12-43 | a drain with nothing in between does in the interleaving system what the drain method does |
| OfflineDrains.QueueEmptiesUnderOverlap | apps/mobile/lib/offline-queue.ts:12-43 | the queue empties after four drains per started twenty, each begun when the one before was through, whatever other drains run beside them |
| GmailIngest.ExtractsFirstPlainText | src/agents/ops/gmail-ingest-job.ts:84-94 | the walk finds the first non-empty text/plain content down to depth five, never another type |
| GmailIngest.TenantMailbox.ProcessMessage | src/agents/ops/gmail-ingest-job.ts:219-322 | which failures leave the message unrecorded; a wanted message is recorded and the agent called for it once, and it stays recorded when that call raises |
| GmailIngest.TenantMailbox.ProcessMessages | src/agents/ops/gmail-ingest-job.ts:207-213 | an error in one message does not keep the others from being processed |
| GmailIngest.TenantMailbox.InsertEmail | src/agents/ops/gmail-ingest-job.ts:256-264 | on conflict nothing changes |
| GmailIngest.TenantMailbox.CollectIds | src/agents/ops/gmail-ingest-job.ts:184-190 | the distinct ids of the history window, in order of appearance |
| GmailIngest.TenantMailbox.IngestForTenant | src/agents/ops/gmail-ingest-job.ts:143-217 | a finished job has recorded each id of its window unless an error was raised before the insert; rows never change; the agent is called once for exactly the newly recorded wanted messages; the pointer moves only on finishing |
| GmailIngest.DeliveredExactlyWhenItsOneCallSucceeds | src/agents/ops/gmail-ingest-job.ts:219-322 | over any sequence of jobs: a recorded wanted message gets its one call in the job that records it and never another; it is delivered exactly when that call did not raise |
| GmailIngest.RecordingKeeps | src/agents/ops/gmail-ingest-job.ts:256-321 | a body is stored only where the filter said so, the agent is called once for exactly the wanted rows, with what is stored |
| GmailIngest.StoredInWords | src/agents/ops/gmail-ingest-job.ts:276-277 | the stored body is the part between the white space at the ends of the first 2000 characters, and missing exactly when those are all white space |
| GmailIngest.TextsAreParts | src/agents/ops/gmail-ingest-job.ts:84-95 | the texts considered are exactly the contents of the text/plain parts at most five levels down |
| GmailIngest.MessageText | src/agents/ops/gmail-ingest-job.ts:84-95 | the text of a message is one of these, and empty only when all of them are |
| GmailIngest.RecordedInWords | src/agents/ops/gmail-ingest-job.ts:256-300 | the row holds the headers, the verdict on them, and of wanted messages the stored text and the label |
| GmailIngest.CallsForOne | src/agents/ops/gmail-ingest-job.ts:303-315 | one call for a message is one entry of the list and no other entry carries its id |
| GmailIngest.ProcessedInWords | src/agents/ops/gmail-ingest-job.ts:219-322 | a message is recorded exactly when it was not there and the needed answers came; then the agent is called once if it is wanted |
| GmailIngest.IdsInWords | src/agents/ops/gmail-ingest-job.ts:184-190 | the ids of a history are those that some record lists, each once |
| GmailIngest.OneMoreJob | src/agents/ops/gmail-ingest-job.ts:143-217 | exactly which messages one more job records, and when it moves the history pointer |
| GmailOverlap.DispatchedAtMostOnce | src/agents/ops/gmail-ingest-job.ts:228-321 | with jobs run one at a time the agent is called for every message at most once |
| GmailOverlap.TwoDispatchesNeedARace | src/agents/ops/gmail-ingest-job.ts:228-321 | however jobs interleave, two calls need two attempts, neither turned down by the filter, between duplicate check and insert at once |
| GmailOverlap.RaceAllowsTwoDispatches | src/agents/ops/gmail-ingest-job.ts:353-374 | and from every such overlap the run can go on to two calls |
| GmailOverlap.OneAttempt | src/agents/ops/gmail-ingest-job.ts:219-322 | one attempt by itself: the message is stored, and handed over once if it is wanted |
| GmailOverlap.FailureEnds | src/agents/ops/gmail-ingest-job.ts:207-213 | an attempt that raised does nothing any more, and what it did stays |
| WsSessions.WsSessionManager.Register | src/gateway/ws-session-manager.ts:39-47 | both indexes list the new session; they stay in step exactly when the socket was not registered |
| WsSessions.WsSessionManager.Unregister | src/gateway/ws-session-manager.ts:53-68 | every tracked controller is aborted, the session leaves both indexes, nothing else is touched |
| WsSessions.SessionEntry.AbortAll | src/gateway/ws-session-manager.ts:57-61 | all controllers of the session are aborted and forgotten |
| WsSessions.WsSessionManager.TrackRequest | src/gateway/ws-session-manager.ts:74-76 | the controller is tracked on that socket only |
| WsSessions.WsSessionManager.UntrackRequest | src/gateway/ws-session-manager.ts:81-83 | the controller is forgotten |
| WsSessions.WsSessionManager.Push | src/gateway/ws-session-manager.ts:89-103 | each open socket of the tenant gets the payload exactly once unless its send fails, and no other socket anything |
| WsSessions.WsSessionManager.GetSessionCount | src/gateway/ws-session-manager.ts:106-108 | the size of the tenant set |
| WsSessions.WsSessionManager.GetTotalSessionCount | src/gateway/ws-session-manager.ts:111-115 | the loop total equals the number of registered sockets |
| WsSessions.WsSessionManager.GetSockets | src/gateway/ws-session-manager.ts:121-123 | the sockets of the tenant, each once |
| WsSessions.AddingKeeps | src/gateway/ws-session-manager.ts:39-47 | a double registration breaks the agreement of the indexes, any other keeps it |
| WsSessions.RemovingKeeps | src/gateway/ws-session-manager.ts:63-67 | removing keeps the agreement, leaves no empty set, and takes exactly that session from exactly that tenant |
| WsSessions.SameSize | src/gateway/ws-session-manager.ts:111-115 | the tenant sets and the socket map hold the same number of sessions |

## Left out

- RouteOptimizer.OptimizeRoute: the rounding of distances is exact, not that of the floating-point quotient; the maps URL and the order of geocoding warnings are not modelled, nor invalid dates, non-finite drive times and fixed times of stops without coordinates beyond what the code does with them.
- SseReader.ReadSseLines: starts from decoded characters; byte decoding is not part of this model, and the signal is looked at between reads, as in the code.
- SectionText.ReadAfterUpdate: section names hold characters that match one character each (`PlainChar`, dots included; names with anchors are AnchoredNameIsNeverFound), no quantifiers, groups, classes or alternatives; those would need a model of the expression language.
- SectionText.UpdatedMatch: section names hold characters that match one character each (`PlainChar`, dots included; names with anchors are AnchoredNameIsNeverFound), no quantifiers, groups, classes or alternatives; those would need a model of the expression language.
- SectionText.ReplaceAlters: section names hold characters that match one character each (`PlainChar`, dots included; names with anchors are AnchoredNameIsNeverFound), no quantifiers, groups, classes or alternatives; those would need a model of the expression language.
- SectionText.KeptExactlyWhenInert: section names hold characters that match one character each (`PlainChar`, dots included; names with anchors are AnchoredNameIsNeverFound), no quantifiers, groups, classes or alternatives; those would need a model of the expression language.
- SectionText.ReadAfterAppend: section names hold characters that match one character each (`PlainChar`, dots included; names with anchors are AnchoredNameIsNeverFound), no quantifiers, groups, classes or alternatives; those would need a model of the expression language.
- SectionText.LastUpdateWins: section names hold characters that match one character each (`PlainChar`, dots included; names with anchors are AnchoredNameIsNeverFound), no quantifiers, groups, classes or alternatives; those would need a model of the expression language; when the first update inserts a section of its own, only inert second contents are covered.
- SectionFrame.OtherSectionStays: section names hold characters that match one character each (`PlainChar`, dots included; names with anchors are AnchoredNameIsNeverFound), no quantifiers, groups, classes or alternatives; those would need a model of the expression language.
- SectionFrame.OtherSectionStaysExactly: section names hold characters that match one character each (`PlainChar`, dots included; names with anchors are AnchoredNameIsNeverFound), no quantifiers, groups, classes or alternatives; those would need a model of the expression language.
- MemoryWrites.NoUpdateIsLost: assumes that every write releases its lock within its five seconds, because later the code looks the token up by path and may release another writer's lock; a failing file operation has no effect on the file.
- MemoryWrites.OneWritePerPath: a file is identified with its path, except in OneWritePerFileExactly; tenant directories, file sizes, reading and the write notification are not modelled.
- DistributedLock.RedisDistributedLock.Release: the server's clock is the same as the clients'.
- RateLimiter.RedisRateLimiter.GetRemainingCalls: the method's two commands are one step; calls of other clients between them are covered by SplitCountIsBracketed. The constant key prefix is dropped.
- RateLimiter.SameAnswersExactly: compares the decision and the counts; the reset time, which the two implementations compute differently, is in the methods' contracts only.
- RateLimiter.InMemoryRateLimiter.CheckLimit: the warning threshold is one fifth of the limit rounded up exactly, not the floating-point product; logging is not modelled.
- Approval.EveryDispatchIsAuthorized: runs stay within one process; persistence of pending approvals and reloading them are not modelled. Decision indexes are integers.
- Approval.Execute: the dispatch itself, whose failures are caught and logged, is a foreign call.
- TokenRotation.AtMostOneLiveToken: tokens stand for their hashes; access tokens, subscription claims and HTTP details are not modelled.
- TokenRotation.EachTokenSentOnce: about one run of the app; restarting it from partly written secure storage is not modelled.
- OfflineQueue.QueueEmpties: about whole drains; QueueEmptiesUnderOverlap has the same bound for drains that overlap. Local storage does not fail.
- OfflineDrains.LeavesOnlyWhenSentOrThreeTimesRefused: a POST that the server accepted but whose answer was lost counts as refused, as in the code.
- GmailIngest.TenantMailbox.ProcessMessage: the filter is an arbitrary function of the headers; addresses, contacts, the wire-fraud flag and the purge date are columns computed without loops and are not modelled.
- GmailOverlap.DispatchedAtMostOnce: counts calls of the agent; whether a call delivers is GmailIngest.DeliveredExactlyWhenItsOneCallSucceeds.
- WsSessions.WsSessionManager.Push: the serialization of the envelope is a string given by the caller; closing and closed sockets are both not open.
- HTTP routing, SQL text, OAuth and JWT calls, prompts, screens, push notifications and the credential vault: foreign calls and plumbing.
- Cron jitter, model fallback, chained dispatch, cost tracking, subscription webhooks and the other app stores: they would add only easy members.
