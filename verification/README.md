# Client caches and merges, verified

A Dafny model of the client-side logic of a TypeScript issue tracker: the query caches that must agree
with a server between refetches, and the tree, hash, scan and merge algorithms over their contents.

- **Issue lists** (`IssueTypes`, `Membership`, `Buckets`, `QueryCache`, `Coordinator`, `Refinement`,
  `Rollback`, `WsUpdates`, `CacheRuns`, `LevelRuns`, `Batches`, `LateAnswers`, `LoadMore`). A list caches, per
  status, a loaded window of cards and the server's total. One rules table pushes every issue change
  through all loaded lists. `PassRefinesIff` says, for any patch, any flags and any base entity, exactly
  when a list that was right and is not reported stale is right afterwards. The `Server` value stands
  for what the client cannot compute; the theorems hold for every server. On top: exact rollback of one
  change and of a batch, the idle echo and answer of a client's own write, and whole runs. `CacheRuns`
  follows each list on its own through any events whatever; `LevelRuns` says which lists can drift when
  what the client is told is true; `Batches` and `LateAnswers` are about when it is not. `LoadMore` says
  when paging by the loaded count still reaches every issue after cards have moved.
- **Comments** (`Timeline`, `Threads`, `Comments`, `ReplySearch`, `TimelineRows`). Three traversals of one set of
  parent links (guarded walk up plus stack, fixpoint, queue) are proved exact against definitions of
  thread, cascade and bundle that mention none of them, on cyclic links too.
- **Hashing and flags** (`Fnv`, `FnvVectors`, `FeatureFlags`). The signed 32-bit loop equals the unsigned
  hash of section 2 ("FNV Basics") of draft-eastlake-fnv and has the value both sides pin; rules, rollouts
  and targeting sit on it.
- **Optimistic and durable protocols** (`Preferences`, `ChatStore`, `DraftRestores`, `ExceptionFuse`).
  Step relations over whole runs with failures, lost answers and reloads.
- **Mentions** (`Mentions`, `MentionDrafts`, `MentionLinks`). The cursor-driven serializer against a reading
  of the text as runs, what any draft typed, erased and picked together is sent as, and what the server's
  parser reads back from it.
- **Merges** (`StableSort`, `Inbox`, `IssueMerge`, `TaskMessages`, `Coalesce`). Sorting, deduplication
  and coalescing, and how they commute with the mutations.

Code that updates state in place is a class or a method with loops, proved equal to a specification
function; the theorems are about those functions. `Basics` holds shared vocabulary.

## Where the code does less than its documentation says

The model follows the code. Where a promise fails a lemma shows how, and another gives the exact
condition under which it holds.

- The rules table judges a list's filter but not the row filters (dates, custom properties) in its
  key's sort bag. A list with such a filter can keep a card that fell out of it, unreported
  (`RowFilteredWindowDrifts`). Exact condition: `WindowAgrees` (`ReconcileRefinesIff`).
- The server flags a field group as changed only if the request names a value for it, so clearing an
  assignee or a project arrives flagged as no change, and other clients keep the card or the count,
  unreported (`UnassignGoesUnnoticed`). The flags are sound exactly for the other writes
  (`ServerDimsAreSoundIff`); for flags of any kind see `PassRefinesIff`.
- An answer can tell the client of another client's write before that write's event arrives. The event
  is then judged against an entity that shows it already, and a total stays wrong, unreported
  (`LateEventIsMissed`). Exact condition at the answer: `AnswerAgrees` (`AnswerRefinesIff`).
- A batch answers success when the server skipped some of its issues, and the client takes no second
  look. What it shows is right exactly if the patch changes no skipped issue it holds
  (`PartialBatchShowsIff`). A list is right exactly if no loaded card of a skipped issue differs and as
  many skipped issues are counted under every status (`PartialBatchListIff`).
- A batch that names an issue twice rolls its detail back to the patched value
  (`RepeatedIdKeepsThePatch`). Exact condition: `BatchRollbackIff`. Lists and inbox always come back.
- With neither server flags nor a cached entity, a realtime event's change flags see project
  assignments only (`BlindDiffIff`).
- The create event of an issue a list counts but has not loaded appends its card and counts it again,
  unreported (`LateCreateCountsTwice`). Exact condition: `CreatedListIff`; for whole runs, `Crosses`
  (`UnfilteredIsCrossedIff`). The card is appended though new issues are positioned on top; position order
  is kept exactly if no card of the bucket is positioned after it (`AddKeepsOrderIff`).
- Loading more takes the loaded count for an offset. A card moved behind the loaded ones of a bucket pushes
  an issue below the offset, and no later page brings it (`MoveSkipsForGood`). Exact conditions: everything
  is loaded in the end if and only if no issue before the offset is missing (`LoadsAllIff`); a move leaves
  the loaded part the server's first cards if and only if its slot is the server's (`MoveKeepsPrefixIff`,
  `SlotIff`).
- The row builder promises that the counts always agree; comments on or below a cycle of parents
  disappear (`CyclicCommentsVanish`). Exact condition: `CountsAgreeIff`. With duplicate comment ids its
  search may not end (`DuplicateIdsNeverDrain`). It ends exactly when no id it meets is below itself
  (`SearchEndsIff`).
- "A later toggle wins" fails when a key is saved twice while outstanding and both saves fail: the page
  shows a value the server does not have until the closing refetch (`MuteUnmuteBothFail`, and in
  general `LastTwoFail`). Exact condition: `QueueSettlesRightIff`.
- The applied-restores ledger forgets an id when the consume is acknowledged, even if a fetch made in
  between left the row in the cache; the prompt is then offered again (`RefetchDuringConsumeReoffers`).
  Exact condition: `AcknowledgementIsSafeIff`.
- The task-message merge deduplicates against the list, not within a batch (`RepeatedInOneBatch`).
  Exact condition: `MergeIsDistinctIff`.
- Coalescing a timeline that is out of order may merge more the second time (`OutOfOrderMergesAgain`).
  Exact condition: `IdempotentIff`. The client-side comparator is no order on some properties that mix
  numbers and texts (`MixedTypesAreNoOrder`). Exact condition: `ComparatorOrdersIff`.
- The mention serializer reads a marked word up to the first whitespace, but suggestions insert full names.
  A picked name with a space is sent as plain text, and so are all other mentions of the draft
  (`FullNameIsNotLinked`, `SpaceUnlinksAll`). Names are matched in the order they were picked: picks out of
  text order turn the links off, or, with one name, point them at each other's targets (`SameNamesSwap`).
  Exact condition, whatever was typed, erased and picked: `Agrees` (`ComposedDraftsSendIff`).
- The serializer's comment compares the count of sentinels with the count of markers. The code
  compares the marked words with the marker names and drops stray sentinels.

## Model

| member | source | states |
|---|---|---|
| Membership.VerdictIsSound | packages/core/issues/surface/membership.ts:85-132 | A definite verdict on a partial issue is the server's verdict for every completion of its missing fields |
| Membership.UnknownOnlyWhenServerSide | packages/core/issues/surface/membership.ts:85-132 | With the whole entity at hand the verdict is undecided only for the "all" scope and the involves filter |
| Membership.IndependentKeepsMembership | packages/core/issues/surface/membership.ts:57-77 | A write whose flags the filter does not depend on moves no issue in or out, whoever the server is |
| Membership.ChangedDimsAreSound | packages/core/issues/surface/membership.ts:34-48 | The computed flags name every moved dimension, with the true base or none; with the base exactly those, without exactly the fields carried |
| Membership.VerdictIsExact | packages/core/issues/surface/membership.ts:85-132 | On a whole issue the verdict is yes or no exactly if every server answers so, and in doubt exactly if servers disagree |
| Membership.DependsOnIff | packages/core/issues/surface/membership.ts:57-77 | A list depends on the flags exactly if a change of the flagged kind can move some issue out of it |
| Buckets.LocationSpec | packages/core/issues/cache-helpers.ts:27-37 | The scan over the statuses finds a loaded card whenever there is one, in the bucket that holds it |
| Buckets.SlotFor | packages/core/issues/cache-helpers.ts:112-116 | The slot is the first one whose card is positioned after the new one, so equals keep arrival order |
| Buckets.InsertSorted | packages/core/issues/cache-helpers.ts:112-116 | Inserting by position keeps position order |
| Buckets.PatchSpec | packages/core/issues/cache-helpers.ts:126-169 | After a patch exactly the merged card sits in the target bucket, all other cards stay, one unit of total moves iff the status does, ids stay unique and order sorted |
| Buckets.PatchKeepsOthersInOrder | packages/core/issues/cache-helpers.ts:126-169 | A patch never reorders the other cards of any bucket |
| Buckets.PlainPatchKeepsSlots | packages/core/issues/cache-helpers.ts:136-147 | A patch of neither status nor position leaves every card in its slot |
| Buckets.MovedCardSlot | packages/core/issues/cache-helpers.ts:126-169 | A card that changes bucket or position goes before the first of the others positioned after it, in whatever order they are |
| Buckets.RemoveSpec | packages/core/issues/cache-helpers.ts:53-64 | Removal takes out exactly the one card and one unit of its bucket's total, never below zero |
| Buckets.PatchKeepsInvariant | packages/core/issues/cache-helpers.ts:126-169 | Ids in one bucket each, card status equal to bucket, loaded at most total, and position order are kept by any patch |
| Buckets.RemoveKeepsInvariant | packages/core/issues/cache-helpers.ts:53-64 | The same invariant is kept by removal, after which the id is loaded nowhere |
| Buckets.AddKeepsInvariantIff | packages/core/issues/cache-helpers.ts:40-50 | Adding keeps the invariant exactly when the id is in no other bucket |
| Buckets.AddKeepsOrderIff | packages/core/issues/cache-helpers.ts:40-50 | Adding appends, so position order is kept exactly when no card of the bucket is positioned after the new one |
| QueryCache.BucketedEntriesSpec | packages/core/issues/cache-coordinator.ts:94-104 | The coordinator's loop meets every bucketed list exactly once and nothing else |
| Coordinator.ReconcileEntry | packages/core/issues/cache-coordinator.ts:126-208 | The loop body writes and reports one list as the rules table decides |
| Coordinator.ReconcileLists | packages/core/issues/cache-coordinator.ts:122-208 | The lists written, their snapshots, the stale keys in loop order, and the first loaded copy of the issue |
| Coordinator.PatchDetail | packages/core/issues/cache-coordinator.ts:210-217 | A cached detail is merged with the patch and handed back as it was |
| Coordinator.PatchInbox | packages/core/issues/cache-coordinator.ts:219-225 | A status write follows into the cached inbox, and only a status write |
| Coordinator.ApplyIssueChange | packages/core/issues/cache-coordinator.ts:106-228 | The whole new state of lists, detail and inbox, and the snapshots and stale keys returned |
| Coordinator.AfterChangeAt | packages/core/issues/cache-coordinator.ts:126-208 | Each bucketed list goes through the rules alone; other shapes and other keys are untouched |
| Coordinator.ReportedStale | packages/core/issues/cache-coordinator.ts:69-72 | The reported keys are exactly the lists whose own rules report them |
| Coordinator.TotalsStayNatural | packages/core/issues/cache-helpers.ts:66-110 | No pass takes any total below zero, whatever was counted before |
| Coordinator.PrevIssueSpec | packages/core/issues/cache-coordinator.ts:124-132 | The issue handed back as it was is the base, else a workspace list's copy, else another list's, else the detail, and none exactly if nothing holds it |
| Refinement.PassRefinesIff | packages/core/issues/cache-coordinator.ts:106-228 | For any patch, sound or unsound flags, any base or none, known issue or news: a list that was right and is not reported stale is right afterwards exactly when the loaded card is still counted or seen to leave, or the unit taken off is the one the server took off |
| Refinement.SoundPassAgreesIff | packages/core/issues/cache-coordinator.ts:106-228 | With flags that cover the write and a true base, only the list's row filter can disagree |
| Refinement.ReconcileRefinesIff | packages/core/issues/cache-coordinator.ts:106-228 | So after a sound change an unreported list is right exactly when its window agrees |
| Refinement.ReconcileRefines | packages/core/issues/cache-coordinator.ts:29-50 | If the window passes the issue before and after, the list is reported stale, or counts the server's counts and shows current members in their buckets |
| Refinement.CountsFollowTheStatus | packages/core/issues/cache-coordinator.ts:176-193 | For a member before and after that is not loaded, the totals are the server's new counts even when the key is reported, and it is reported only for a status change |
| Refinement.AbsentTable | packages/core/issues/cache-coordinator.ts:160-208 | Without the card a list is written exactly if the issue surely leaves, or surely stays under a new status, and reported exactly if flagged and not surely out on both sides, leaving, or staying under its status |
| Refinement.PresentTable | packages/core/issues/cache-coordinator.ts:126-158 | With the card it is merged in the bucket of its status, or gone exactly if the issue is seen to leave; reported exactly if flagged and servers disagree |
| Refinement.DecidedReportIff | packages/core/issues/cache-coordinator.ts:29-50 | A list whose filter the client can judge is reported exactly if an issue it has not loaded enters it, or stays with a new status |
| Refinement.DecidedPassIff | packages/core/issues/cache-coordinator.ts:126-208 | Reported or not, such a list is right afterwards exactly unless an issue it has not loaded enters it |
| Refinement.LeaverIsUncounted | packages/core/issues/cache-coordinator.ts:194-202 | An issue that leaves it without being loaded takes one unit with it, and nothing is reported |
| Refinement.RowFilteredWindowDrifts | packages/core/issues/queries.ts:13-23 | A list windowed by a row filter keeps a card that left it, without being reported |
| Refinement.AnswerRefinesIff | packages/core/issues/mutations.ts:306-332 | After the pass over any answer an unreported list is right exactly when what was shown and the answer agree: a loaded card still counted or seen to leave, an issue not loaded counted as before |
| Refinement.UnassignGoesUnnoticed | server/internal/handler/issue.go:2680-2702 | Another client's unassign leaves a list of the assignee wrong, with the card if it was loaded, and unreported |
| Rollback.RollbackIssueChange | packages/core/issues/cache-coordinator.ts:232-250 | The restored state of lists, detail and inbox |
| Rollback.RollbackUndoesChange | packages/core/issues/cache-coordinator.ts:230-250 | Rolling back right after a change gives back the exact store |
| Rollback.BatchUpdate | packages/core/issues/mutations.ts:467-502 | The store and first-wins snapshots after a batch, issue by issue |
| Rollback.BatchRollback | packages/core/issues/mutations.ts:532-545 | The store after restoring a batch's snapshots |
| Rollback.RestoreSnapshots | packages/core/issues/mutations.ts:533-537 | Exactly the snapshotted lists are put back, in whatever order |
| Rollback.RestoreDetails | packages/core/issues/mutations.ts:538-542 | Exactly the snapshotted details are put back, in whatever order |
| Rollback.BatchRollbackIff | packages/core/issues/mutations.ts:480-545 | Lists and inbox always come back; the whole store does exactly when the patch changes no detail of a repeated id |
| Rollback.RepeatedIdKeepsThePatch | packages/core/issues/mutations.ts:497 | An id named twice comes back patched: its second snapshot overwrites the first |
| Rollback.DistinctBatchRollsBack | packages/core/issues/mutations.ts:480-545 | For distinct ids the pre-batch store comes back however many issues touched one list |
| WsUpdates.InvalidateStaleListKeys | packages/core/issues/cache-coordinator.ts:273-281 | Exactly the reported keys are invalidated, each once |
| WsUpdates.OnIssueUpdated | packages/core/issues/ws-updaters.ts:44-111 | The new store and the invalidated keys of a realtime event |
| WsUpdates.WsDimsAreSoundIff | packages/core/issues/ws-updaters.ts:83-99 | Against the true cached entity the flags used cover the write exactly if each flag sent is set or its fields did not change |
| WsUpdates.BlindDiffIff | packages/core/issues/ws-updaters.ts:75-99 | With neither, the diff covers exactly the writes that leave assignee and status alone and clear no project |
| WsUpdates.WsDimsAreExact | packages/core/issues/ws-updaters.ts:83-99 | A flag sent is used as sent; in place of missing ones stands exactly what the patch changes in the cached entity |
| WsUpdates.CachedIssueSpec | packages/core/issues/ws-updaters.ts:62-67 | An event is judged against the detail if there is one, else the copy in the first workspace list, and nothing else |
| WsUpdates.ReconcileSettles | packages/core/issues/cache-coordinator.ts:126-208 | Whatever flags and base, one pass leaves a list settled for the same patch |
| WsUpdates.SettledIsIdle | packages/core/issues/cache-coordinator.ts:126-208 | On a settled list a second pass writes the same list and reports it exactly when its membership is undecided |
| WsUpdates.SecondPassIsIdle | packages/core/issues/mutations.ts:315-331 | A second pass whose base carries the patch changes nothing in the store: no total is counted twice |
| WsUpdates.EchoIsIdle | packages/core/issues/ws-updaters.ts:75-111 | The echo carries the whole issue: after the optimistic pass every copy is the new entity, the event changes no list and no detail, reports exactly the undecided lists, and leaves the inbox exactly if its rows show the status |
| WsUpdates.EchoAndAnswerCommute | packages/core/issues/mutations.ts:306-332 | Echo and answer leave the same store in either order, and the second changes nothing |
| WsUpdates.WholePassIsIdle | packages/core/issues/cache-coordinator.ts:106-228 | A pass of the whole entity over copies of it changes no list and no detail and reports exactly the undecided lists |
| WsUpdates.ServerReconcileIsIdle | packages/core/issues/mutations.ts:306-332 | An answer that matches what is shown and coerces nothing changes nothing and reports nothing |
| WsUpdates.ServerDimsAreSoundIff | server/internal/handler/issue.go:2680-2688 | The flags the server stamps cover exactly the writes that clear neither assignee nor project |
| WsUpdates.ServerFlagsClaimNoMore | server/internal/handler/issue.go:2680-2702 | The server's flags claim no change that the optimistic pass did not |
| WsUpdates.ServerEchoIsIdle | packages/core/issues/ws-updaters.ts:75-111 | So the event with the flags the server stamps on the client's own write changes no list and no detail |
| CacheRuns.CreatedListIff | packages/core/issues/ws-updaters.ts:19-27 | Adding a created issue leaves a right list right exactly if its card is there already, or the list's server counts the issue and did not before |
| CacheRuns.CreateListIff | packages/core/issues/ws-updaters.ts:19-29 | A create event, of a known issue too, keeps each list right, known stale or drifted, and it drifts only if it is wrong |
| CacheRuns.PassListIff | packages/core/issues/cache-coordinator.ts:106-228 | Any pass keeps each list right, known stale or drifted, and an unreported list drifts exactly if it is wrong |
| CacheRuns.FailureRestores | packages/core/issues/mutations.ts:294-305 | A failed save, and a failed batch over distinct ids, leaves the store as it was; any failed batch leaves the lists |
| CacheRuns.RunsStayConsistent | packages/core/issues/cache-coordinator.ts:20-56 | Over any run of realtime events, optimistic passes, answers, settlements, failures, creates and refetches in any order, every list that no refetch is due for and that has not drifted shows and counts what the server would answer for the issues as the list was told of them |
| CacheRuns.DriftIsReal | packages/core/issues/cache-coordinator.ts:20-56 | At any step a list that was right and for which no refetch is due, not even when a pending save settles, drifts exactly if it is wrong after it |
| CacheRuns.SettledKnows | packages/core/issues/mutations.ts:333-356 | When a save settles its reported keys are invalidated, so the same lists are due for a refetch before and after |
| LevelRuns.StepKeepsLevel | packages/core/issues/mutations.ts:225-332 | If flags cover the writes and answers say what is shown, every card and detail stays the entity the client was told, through events between a save and its answer too |
| LevelRuns.StepDriftsByCrossing | packages/core/issues/cache-coordinator.ts:78-92 | Then a list drifts only if its row filter is crossed, or a create event tells of a known issue it has not loaded |
| LevelRuns.FaithfulRunsStayRight | packages/core/issues/cache-coordinator.ts:20-56 | Over any such run, create events of known issues included, a list that no event crosses is due for a refetch or exactly the server's answer, whatever crosses other lists |
| LevelRuns.UnfilteredIsCrossedIff | packages/core/issues/ws-updaters.ts:19-27 | A list without a row filter is crossed exactly by the create event of a known issue it has not loaded |
| LevelRuns.LateCreateCountsTwice | packages/core/issues/cache-helpers.ts:40-50 | That event makes a right list that counts the issue wrong, its total one too high |
| Batches.BatchIsPasses | packages/core/issues/mutations.ts:487-502 | A batch leaves the store and reports the keys of its issues' optimistic passes in turn |
| Batches.BatchLevel | packages/core/issues/mutations.ts:487-502 | After a batch over any ids, repeated ones included, the client shows the whole batch |
| Batches.PartialBatchShowsIff | server/internal/handler/issue.go:3086-3310 | With any subset of the batch committed, every detail and card is the server's exactly if the patch changes no skipped issue the client holds |
| Batches.PartialBatchListsRight | server/internal/handler/issue.go:3086-3310 | If it changes no skipped issue, every list neither stale nor drifted is what the server would answer |
| Batches.PartialBatchListIff | server/internal/handler/issue.go:3086-3310 | A list neither known stale nor drifted is what the server would answer exactly if no loaded card of a skipped issue differs and under every status as many skipped issues are counted |
| Batches.SkippedIssuesIff | packages/core/issues/cache-coordinator.ts:106-228 | The same for any right list and any two states of the issues that differ in a given set at most |
| Batches.SkippedIssueIff | server/internal/handler/issue.go:3236-3246 | One skipped issue makes a list wrong exactly if its loaded card differs, or it is not loaded and is counted elsewhere |
| LateAnswers.LateEventIsMissed | packages/core/issues/mutations.ts:315-331 | Another client's reassignment told by an answer before its event: over the four passes a list that counts the unloaded issue keeps its count and is never reported |
| LateAnswers.LateEventHappens | packages/core/issues/mutations.ts:315-331 | There is such a list: one fetched with a total of one and no card ends wrong with no refetch due |
| LateAnswers.UnassignHappens | server/internal/handler/issue.go:2680-2702 | On the same list another client's unassign goes unnoticed |
| LoadMore.LoadsAllIff | packages/core/issues/mutations.ts:95-119 | Repeated load-mores bring the whole bucket in the end exactly if no issue the server lists before the loaded count is missing |
| LoadMore.LoadKeepsNoGap | packages/core/issues/mutations.ts:98-117 | Without a gap a load-more appends the whole page, nothing twice, and leaves no gap |
| LoadMore.LoadBringsFifty | packages/core/issues/mutations.ts:98-104 | It brings the next fifty, or all that are left |
| LoadMore.MoveKeepsPrefixIff | packages/core/issues/cache-helpers.ts:112-116 | A card moved into a bucket leaves the loaded part the server's first cards exactly if the client's slot is the server's |
| LoadMore.SlotIff | packages/core/issues/cache-helpers.ts:112-116 | The slots are equal exactly if the bucket is loaded in full, a loaded card is positioned after the moved one, or the first card not loaded is |
| LoadMore.RemoveKeepsPrefix | packages/core/issues/cache-helpers.ts:53-64 | Taking a loaded card out leaves the loaded part the server's first cards |
| LoadMore.MoveSkipsForGood | packages/core/issues/mutations.ts:95-119 | Otherwise the first issue not loaded is brought by no number of load-mores |
| Timeline.LastLinkCounts | packages/core/issues/mutations.ts:841-849 | Of several comments with one id the last one's parent counts, an empty parent id being none |
| Threads.WalkUp | packages/core/issues/mutations.ts:846-853 | The guarded walk ends at an id above the comment that is a top or lies on a cycle |
| Threads.IndexChildren | packages/core/issues/mutations.ts:854-862 | Each id's children are exactly the loaded comments that reply to it |
| Threads.PushUnseen | packages/core/issues/mutations.ts:867-872 | The children not seen yet are marked and stacked, the rest is untouched |
| Threads.WalkDown | packages/core/issues/mutations.ts:863-873 | The stack search collects exactly the ids from which the root is reached |
| Threads.CollectThreadCommentIds | packages/core/issues/mutations.ts:837-875 | Terminates with exactly the connected component of a loaded comment, on any links |
| Threads.SameThreadIffMeet | packages/core/issues/mutations.ts:832-836 | Two comments are joined by reply links exactly when they share an ancestor |
| Threads.SameSetIffSameThread | packages/core/issues/mutations.ts:832-875 | Two comments get the same set exactly when they share a thread |
| Comments.ResolveComment | packages/core/issues/mutations.ts:885-907 | The timeline after a resolve or unresolve |
| Comments.ResolveAt | packages/core/issues/mutations.ts:889-910 | Entry by entry: resolving sets the comment's time and clears the others of its thread, unresolving clears the comment's only, and nothing else changes |
| Comments.UnresolveClearsTheThread | packages/core/issues/mutations.ts:885-910 | Unresolving after resolving leaves no resolution in the thread and every other entry as it was |
| Comments.SoleResolution | packages/core/issues/mutations.ts:887-891 | Resolving leaves exactly one resolution in the thread and every other thread as it was |
| Comments.ResolveKeepsOneResolution | packages/core/issues/mutations.ts:885-907 | Resolve and unresolve keep at most one resolution per thread |
| Comments.CollectCascade | packages/core/issues/mutations.ts:797-814 | The fixpoint ends with the least set that holds the comment and every entry whose parent it holds |
| Comments.DeleteComment | packages/core/issues/mutations.ts:793-818 | Exactly that set leaves the timeline |
| Comments.DeleteNeverPromotes | packages/core/issues/mutations.ts:797-818 | Every surviving comment keeps its loaded parent |
| Comments.DeleteJoinsNothing | packages/core/issues/mutations.ts:797-818 | Comments in one thread after a deletion were in one before |
| Comments.RunsKeepOneResolution | packages/core/issues/mutations.ts:797-907 | At most one resolution per thread survives every run of resolve, unresolve and cascade delete |
| TimelineRows.Partition | apps/mobile/lib/timeline-thread.ts:45-61 | Top-level entries in input order, and each comment's replies in input order |
| ReplySearch.NoParentIsTopLevel | apps/mobile/lib/timeline-thread.ts:45-61 | An entry without a parent, or with an empty parent id, is a row of its own |
| TimelineRows.CollectDescendants | apps/mobile/lib/timeline-thread.ts:63-80 | Whenever no id met is below itself the search ends with the replies to the root and then to each reply in turn, in input order; with distinct ids these are exactly the comments below a top-level root, each once, parents first |
| TimelineRows.BuildRow | apps/mobile/lib/timeline-thread.ts:82-86 | A comment's row carries what its search finds, with distinct ids its bundle; an activity's row nothing |
| TimelineRows.BuildTimelineRows | apps/mobile/lib/timeline-thread.ts:37-87 | One row per top-level entry in input order, for all entries on which the searches end; with distinct ids the timeline |
| TimelineRows.DistinctRowsEnd | apps/mobile/lib/timeline-thread.ts:63-80 | With distinct comment ids every search ends, on cyclic parents too |
| TimelineRows.RowsConserveEntries | apps/mobile/lib/timeline-thread.ts:15-26 | The rows hold every entry exactly once, but for comments on or below a cycle |
| TimelineRows.CountsAgreeIff | apps/mobile/lib/timeline-thread.ts:24-26 | The counts agree, and the rows are a permutation of the entries, exactly when no comment has a cyclic ancestor chain |
| TimelineRows.CyclicCommentsVanish | apps/mobile/lib/timeline-thread.ts:48-61 | Two comments that reply to each other are in no row |
| TimelineRows.CascadeIsTheRow | packages/core/issues/mutations.ts:797-814 | Deleting a top-level comment removes its row, and nothing else exactly when no activity hangs on it |
| ReplySearch.DuplicateIdsNeverDrain | apps/mobile/lib/timeline-thread.ts:68-78 | A duplicate comment id can keep the queue non-empty forever |
| ReplySearch.SearchEndsIff | apps/mobile/lib/timeline-thread.ts:68-78 | For any entries and root the queue runs empty exactly when no id reachable from the root is below itself |
| Fnv.Fnv1a | packages/core/feature-flags/hash.ts:29-56 | The signed loop over the parts returns the unsigned hash of the zero-separated bytes |
| Fnv.SignedStepIsStep | packages/core/feature-flags/hash.ts:47-52 | One signed round, read unsigned, is the defined round, whatever 32-bit representative came in |
| Fnv.XorBitsAt | packages/core/feature-flags/hash.ts:48 | The arithmetic exclusive or is the exclusive or of every bit |
| Fnv.StepIsBijective | packages/core/feature-flags/hash.ts:47-52 | For each byte a round is a bijection on 32-bit states |
| Fnv.SameBytesKeepApart | packages/core/feature-flags/hash.ts:47-52 | Different states never meet over the same bytes |
| Fnv.OneByteApart | packages/core/feature-flags/hash.ts:29-56 | Byte strings of one length that differ in exactly one byte never share a hash |
| Fnv.JoinedIsInjective | packages/core/feature-flags/hash.ts:34-40 | The separator keeps pairs apart: both parts are recovered from the joined bytes |
| Fnv.BucketFor | packages/core/feature-flags/hash.ts:63-65 | The bucket is the hash of key and identifier modulo 100 |
| Fnv.BucketOf | packages/core/feature-flags/hash.ts:58-65 | Buckets lie in [0, 100) |
| Fnv.BucketIsOfBytes | packages/core/feature-flags/hash.ts:63-65 | The bucket is that of the key's bytes, one zero byte and the identifier's bytes, in that order |
| FnvVectors.AccentedBucket | packages/core/feature-flags/hash.test.ts:44 | Flag "flag" puts the identifier U+00E9 into bucket 53, as the server does |
| Fnv.InPercentIsThreshold | packages/core/feature-flags/hash.ts:67-76 | Clamps included, an identity is in exactly when its bucket is below the percentage |
| FeatureFlags.StaticProvider.Set | packages/core/feature-flags/static-provider.ts:24-26 | Installs one rule and keeps the others |
| FeatureFlags.StaticProvider.LoadRules | packages/core/feature-flags/static-provider.ts:32-34 | Replaces all rules |
| FeatureFlags.StaticProvider.Lookup | packages/core/feature-flags/static-provider.ts:41-45 | The rule's decision, or none for an unknown key |
| FeatureFlags.DenyWins | packages/core/feature-flags/static-provider.ts:48-57 | A denied identity is off at every allow list, percentage and default |
| FeatureFlags.OffHasNoVariant | packages/core/feature-flags/static-provider.ts:83-90 | A decision names the off variant exactly when it is off |
| FeatureFlags.OnIff | packages/core/feature-flags/static-provider.ts:48-75 | On exactly if no denied value is held in the deny list's field, and an allowed one is, or the identifier's bucket is below the rollout's percentage, or without a rollout the default is on |
| FeatureFlags.DecisionCarries | packages/core/feature-flags/static-provider.ts:77-103 | The decision names the key asked for, the rule's variant exactly when on and one is named, and the rollout as reason exactly if no list decided |
| FeatureFlags.AllowingOne | packages/core/feature-flags/static-provider.ts:59-65 | Allowing one more identity turns the flag on for exactly the contexts that hold it, are not denied and were off |
| FeatureFlags.DenyingOne | packages/core/feature-flags/static-provider.ts:49-57 | Denying one more turns it off for exactly the contexts that hold it and were on |
| FeatureFlags.RaisingPercent | packages/core/feature-flags/static-provider.ts:67-72 | Raising a percentage turns nobody off, and on exactly the untargeted identities whose bucket lies between |
| FeatureFlags.RolloutNeverTurnsOff | packages/core/feature-flags/static-provider.ts:48-75 | Over a rollout that never lowers the percentage, once on stays on |
| Preferences.DerivePatch | packages/core/notification-preferences/patch.ts:27-42 | The patch of exactly the keys whose values differ |
| Preferences.ApplyPatch | packages/core/notification-preferences/patch.ts:45-61 | Muted keys are written, "all" keys removed, the rest kept |
| Preferences.RollbackPatch | packages/core/notification-preferences/patch.ts:67-92 | Exactly the keys where the patch still stands go back to their previous value |
| Preferences.DeriveApplyRollback | packages/core/notification-preferences/patch.ts:23-92 | The derived patch leads to the next view and its rollback leads back, reading missing as "all" |
| Preferences.DerivedIsSmallest | packages/core/notification-preferences/patch.ts:23-26 | No patch that leads there names fewer keys |
| Preferences.Stores | packages/core/notification-preferences/patch.ts:44-92 | Only muted keys of a patch are stored and the keys it leaves alone stay, stored or not; a rollback does so for the keys that stand |
| Preferences.PreferenceCache.OnMutate | packages/core/notification-preferences/mutations.ts:92-105 | The patched cache, and the previous one handed back |
| Preferences.PreferenceCache.OnError | packages/core/notification-preferences/mutations.ts:106-117 | The selectively rolled-back cache |
| Preferences.SettleKeepsOverlay | packages/core/notification-preferences/mutations.ts:90-117 | With disjoint outstanding patches the cache stays the server's view overlaid with them, through success and failure |
| Preferences.IssueKeepsOverlay | packages/core/notification-preferences/mutations.ts:92-105 | A save of keys not outstanding keeps that overlay |
| Preferences.QuiescentViewsAgree | packages/core/notification-preferences/mutations.ts:79-125 | After any interleaving with no key outstanding twice, whenever nothing is outstanding the page shows what the server has |
| Preferences.MuteUnmuteBothFail | packages/core/notification-preferences/patch.ts:63-66 | Muted and unmuted before the first answer, both saves failing: the page shows muted, the server has "all" |
| Preferences.LastTwoFail | packages/core/notification-preferences/patch.ts:63-66 | If the last two saves of a key fail and the rest succeed, the page shows a value the server does not have |
| Preferences.QueueSettlesRightIff | packages/core/notification-preferences/patch.ts:63-92 | A queue of saves settles right under every outcome exactly when no key is saved twice |
| ChatStore.Store.EnqueuePendingSendRestore | packages/core/chat/store.ts:369-381 | Memory and storage both hold the session's queue with the restore at the end, unless its id is queued or empty |
| ChatStore.Store.DequeuePendingSendRestore | packages/core/chat/store.ts:383-394 | Memory and storage both hold the session's queue without the id |
| ChatStore.Store.SwitchWorkspace | packages/core/chat/store.ts:456-477 | Memory is what storage holds for the new workspace; storage is untouched |
| ChatStore.Store.WriteQueues | packages/core/chat/store.ts:171-182 | Storage holds the non-empty queues of the current workspace, or nothing |
| ChatStore.Store.WriteLedger | packages/core/chat/store.ts:134-137 | Storage holds the ledger of the current workspace, or nothing if empty |
| ChatStore.Store.MarkDraftRestoreApplied | packages/core/chat/store.ts:349-355 | The id joins the ledger in memory and storage, other workspaces' ledgers untouched |
| ChatStore.Store.ForgetDraftRestoreApplied | packages/core/chat/store.ts:357-363 | The id, and no other, leaves the ledger in memory and storage |
| ChatStore.RunsKeepIdsUnique | packages/core/chat/store.ts:364-394 | Over any run no queue of any workspace and session holds an id twice |
| ChatStore.KeysApartIff | packages/core/chat/store.ts:281-284 | Two workspaces share a stored blob exactly if both have no slug or the same one |
| ChatStore.KindsApart | packages/core/chat/store.ts:23-37 | The ledger and the queues never share a key, in whatever workspaces |
| ChatStore.EnqueueReaches | packages/core/chat/store.ts:369-381 | A restore with id and session goes to the end of its session's queue in the current workspace unless its id is queued; every other queue stays |
| ChatStore.DequeueReaches | packages/core/chat/store.ts:383-394 | A dequeue takes the restores of that id from that queue only |
| ChatStore.RemovalMovesUp | packages/core/chat/store.ts:383-394 | Removing another id keeps a restore queued and puts nobody ahead of it |
| ChatStore.QueuedSurvives | packages/core/chat/store.ts:364-394 | A queued restore survives every reload, switch and other request until dequeued in its own workspace and session, and is never overtaken |
| DraftRestores.StepKeepsSafe | packages/core/chat/store.ts:15-22 | Every restore handed over stays recorded, or nowhere to be offered from |
| DraftRestores.StepKeepsLossless | packages/views/chat/components/use-chat-draft-restore.ts:80-93 | A row is on the server until some client has it |
| DraftRestores.QuietRunsHandOverOnce | packages/core/chat/store.ts:15-22 | Over runs with lost requests, lost answers, reloads and rival clients each restore is handed over at most once and none is lost, if every acknowledgement finds no copy left |
| DraftRestores.FreshClientHandsOverOnce | packages/core/chat/store.ts:15-22 | In particular in every such run of a fresh client |
| DraftRestores.RowCanBeHandedOver | packages/views/chat/components/use-chat-draft-restore.ts:50-66 | From every safe state a row nobody was handed can still be fetched, offered and adopted |
| DraftRestores.HandedRowCanBeConsumed | packages/views/chat/components/use-chat-draft-restore.ts:60-64 | From every safe state a row that outlived its hand-over can still be consumed, after which no copy and no ledger entry is left and nothing was handed over again |
| DraftRestores.AcknowledgementIsSafeIff | packages/views/chat/components/use-chat-draft-restore.ts:120-131 | Forgetting on acknowledgement is safe exactly when the client holds no copy of the row; otherwise a second hand-over follows |
| DraftRestores.RefetchDuringConsumeReoffers | packages/core/chat/mutations.ts:22-45 | From a fresh client: a fetch answered between adoption and consume leads to a second hand-over |
| Mentions.TokenAtCursor | apps/mobile/lib/mention-serialize.ts:47-78 | Returns the token that ends at the cursor, and none only if there is none |
| Mentions.IndexOfSentinel | apps/mobile/lib/mention-serialize.ts:135-140 | The first sentinel from the cursor on, and none only if there is none |
| Mentions.ReadWord | apps/mobile/lib/mention-serialize.ts:149-152 | The word runs to the first whitespace or the end of the text |
| Mentions.TakeSentinel | apps/mobile/lib/mention-serialize.ts:142-167 | A stray sentinel is skipped, a marked word is linked to the next marker or stops the scan |
| Mentions.SerializeMentions | apps/mobile/lib/mention-serialize.ts:122-175 | All-or-nothing: every marked word rendered as its marker's link, in order, when the words are the markers' names in order, else the text without sentinels |
| Mentions.NoTextLost | apps/mobile/lib/mention-serialize.ts:114-120 | The output with each emitted link rendered as its label is the text, up to sentinels, for every text and marker list |
| Mentions.LabelsLoseNothingIff | apps/mobile/lib/mention-serialize.ts:114-120 | It is exactly the text without its sentinels if and only if no linked name holds one |
| Mentions.LabelledIsRendered | apps/mobile/lib/mention-serialize.ts:161-165 | Rendered with labels, the linked runs read as the marked words |
| MentionDrafts.PickIsInsert | apps/mobile/lib/mention-serialize.ts:85-106 | Picking at a cursor anywhere in the typed parts is the text operation: the token becomes the completed mention and the marker is pushed last |
| MentionDrafts.TokenIsInPart | apps/mobile/lib/mention-serialize.ts:47-78 | A token never reaches back into a mention, since that ends in a space |
| MentionDrafts.ScanComposed | apps/mobile/lib/mention-serialize.ts:122-175 | Typed parts and mentions of names without whitespace are sent with every mention linked if the markers, whichever they are, name them in order, and with none otherwise |
| MentionDrafts.SpaceUnlinksAll | apps/mobile/lib/mention-serialize.ts:149-160 | One marker whose name holds whitespace unlinks every mention of any text |
| MentionDrafts.SendsIff | apps/mobile/lib/mention-serialize.ts:122-175 | A draft is sent with every mention linked exactly if no name in it holds whitespace and the markers name its mentions in order, and else as its text without sentinels |
| MentionDrafts.RunsStayValid | apps/mobile/lib/use-mention-input.ts:57-110 | Over any typing, erasing and picking outside the mentions, no typed part holds a sentinel and every mention has its marker |
| MentionDrafts.ComposedDraftsSendIff | apps/mobile/lib/mention-serialize.ts:85-175 | So after any such run the draft is sent linked exactly if it agrees with its markers |
| MentionDrafts.InOrderDraftsSendIff | apps/mobile/lib/mention-serialize.ts:85-175 | If picks were made after the last mention and none was erased, every mention is linked to what was picked exactly if no name holds whitespace |
| MentionDrafts.FullNameIsNotLinked | apps/mobile/components/issue/mention-suggestion-bar.tsx:266-318 | A full name picked at an @ is sent as plain text |
| MentionDrafts.SameNamesSwap | apps/mobile/lib/mention-serialize.ts:153-167 | Two mentions of one name picked back to front are linked to each other's targets |
| MentionDrafts.PickClosesToken | apps/mobile/lib/mention-serialize.ts:94-106 | After a pick the cursor stands right behind the mention and no token ends there |
| MentionLinks.SentReadsBack | server/internal/util/mention.go:16-40 | The server's parser reads from what was sent exactly the markers' kinds and ids, in order, or none if it was sent plain; for ids it accepts, non-empty names, and text without an anchor of its own |
| MentionLinks.LabelIsRead | apps/mobile/lib/mention-serialize.ts:161-165 | A link's label is an issue's name, or any other name behind an @ |
| MentionLinks.NoTextLostToReaders | apps/mobile/lib/mention-serialize.ts:114-120 | With each link shown as the label read from it, the message is the text that was written, up to sentinels |
| StableSort.SortSpec | packages/core/inbox/queries.ts:108-111 | Sorting by a total preorder gives an ordered permutation |
| StableSort.FilterSort | packages/core/inbox/queries.ts:108-111 | Stability: sorting and dropping elements commute |
| Inbox.DeduplicateInboxItems | packages/core/inbox/queries.ts:76-112 | The grouping and sorting loops give the deduplicated list |
| Inbox.GroupByKey | packages/core/inbox/queries.ts:77-84 | The groups hold the active items of each key in order, the keys in order of first appearance |
| Inbox.NewestOf | packages/core/inbox/queries.ts:86-107 | A group's newest item, with the newest comment if it names none |
| Inbox.DeduplicatedSpec | packages/core/inbox/queries.ts:71-112 | Newest first, one entry per active issue, each the newest of its issue, none archived |
| Inbox.OneEntryPerIssue | packages/core/inbox/queries.ts:71-112 | No two entries are of one issue, and an earlier entry is no older |
| Inbox.EachItemIsStoodFor | packages/core/inbox/queries.ts:71-112 | Every item not archived has an entry of its issue no older than it or, without an issue, its own |
| Inbox.CarriedComment | packages/core/inbox/queries.ts:94-104 | An entry keeps its newest item's own comment, an empty one too; without one it opens at that of the newest item naming one |
| Inbox.DeduplicationIsIdempotent | packages/core/inbox/queries.ts:76-112 | Deduplicating twice is deduplicating once |
| Inbox.ArchiveRemovesOneEntry | packages/core/inbox/mutations.ts:34-48 | Archiving removes exactly its issue's entry and leaves the rest in order |
| Inbox.ArchiveAt | packages/core/inbox/mutations.ts:34-48 | Item by item: archiving marks the item and, if it is found with an issue, the others of that issue, and changes nothing else |
| Inbox.ReadAt | packages/core/inbox/mutations.ts:12-19 | Reading marks the item read, reading all every item that is not archived; nothing else changes |
| Inbox.ReadLowersCountByOne | packages/core/inbox/mutations.ts:12-19 | Reading an entry marks that entry only and lowers the unread count by one if it was unread |
| Inbox.ReadAllClearsTheCount | packages/core/inbox/mutations.ts:63-72 | Marking all read keeps the entries in order and leaves none unread |
| Inbox.DeduplicatedMapped | packages/core/inbox/queries.ts:60-69 | A change that grouping and order do not see commutes with deduplication |
| Inbox.InboxCache.ArchiveInbox | packages/core/inbox/mutations.ts:34-48 | The item and all others of its issue archived; the previous list handed back |
| Inbox.InboxCache.MarkInboxRead | packages/core/inbox/mutations.ts:12-19 | The item read; the previous list handed back |
| Inbox.InboxCache.MarkAllInboxRead | packages/core/inbox/mutations.ts:63-72 | Every item that is not archived read; the previous list handed back |
| Inbox.InboxCache.OnError | packages/core/inbox/mutations.ts:49-51 | The previous list restored, if there was one |
| IssueMerge.ComparatorIsTheOrder | packages/core/issues/queries.ts:202-242 | On same-typed values the comparator agrees with ORDER BY: missing last in both directions, ties newest first |
| IssueMerge.OrderIsTotal | packages/core/issues/queries.ts:195-201 | That order is a total preorder for every key and direction |
| IssueMerge.MixedTypesAreNoOrder | packages/core/issues/queries.ts:215-226 | On numbers mixed with texts the comparator can be cyclic |
| IssueMerge.ComparatorOrdersIff | packages/core/issues/queries.ts:202-242 | The comparator orders a set of rows exactly when any two numbers between which a text lies, as they print, are in the order in which they print |
| IssueMerge.MergeSources | packages/core/issues/queries.ts:252-262 | The union of the sources without repeated ids, each as first seen |
| IssueMerge.MergedBucket | packages/core/issues/queries.ts:251-265 | Always that union with its length as total; in the comparator's order where it is one, and on same-typed values any two rows stand as picked |
| IssueMerge.ComparatorIsPickedOrder | packages/core/issues/queries.ts:202-242 | Key by key: on rows of one type the comparator puts a pair in the picked direction, position always ascending, priorities from urgent down, missing values last, equal values newest first |
| IssueMerge.BucketIsInPickedOrder | packages/core/issues/queries.ts:251-265 | So are any two rows of a bucket of one type |
| IssueMerge.MissingComesLast | packages/core/issues/queries.ts:208-223 | In an ordered bucket rows without a value come last in both directions |
| TaskMessages.MergeIsOrdered | packages/core/chat/queries.ts:192-201 | For any batch a merge is an ordered permutation of the list and the batch's unseen messages, and knows exactly the old and the delivered numbers |
| TaskMessages.DeliveredIsOrdered | packages/core/chat/queries.ts:186-201 | After any deliveries whatever the list is in order and knows exactly the numbers that arrived |
| TaskMessages.MergeSpec | packages/core/chat/queries.ts:192-201 | A merge of a batch without repeated numbers repeats none, and existing messages win |
| TaskMessages.MergeIsSameIff | packages/core/chat/queries.ts:192-201 | A merge leaves any list as it is exactly if it knew every number delivered |
| TaskMessages.DeliveredSpec | packages/core/chat/queries.ts:186-201 | After any deliveries the list is ordered and holds exactly what arrived |
| TaskMessages.DeliveryOrderIsIrrelevant | packages/core/chat/queries.ts:186-201 | The list depends only on what arrived, not on order, batching or repetition |
| TaskMessages.MergeIsDistinctIff | packages/core/chat/queries.ts:197-200 | A merge is free of repeated numbers exactly when the batch repeats none it newly delivers |
| TaskMessages.RepeatedInOneBatch | packages/core/chat/queries.ts:197-200 | A number repeated in one batch stays twice |
| Coalesce.CoalesceTimeline | apps/mobile/lib/timeline-coalesce.ts:29-58 | The loop gives the coalesced timeline |
| Coalesce.CoalescedIsMaximalRuns | apps/mobile/lib/timeline-coalesce.ts:29-58 | One entry for each maximal run of neighbours that merge: the last of the run, counting the first's count plus one for each further entry |
| Coalesce.CountsConserved | apps/mobile/lib/timeline-coalesce.ts:48-51 | The counts add up to the input's less what entries that merge with their neighbour bring along; without prior counts, to the number of entries |
| Coalesce.RunIsOneDoing | apps/mobile/lib/timeline-coalesce.ts:36-51 | Neighbours are in one run exactly if they are one actor's same activity, no comments or evaluations, and at most two minutes apart unless they end a task |
| Coalesce.EveryoneIsShown | apps/mobile/lib/timeline-coalesce.ts:29-58 | Every entry is shown by one of the same actor and activity; comments and a leader's evaluations always themselves |
| Coalesce.CoalescingIsIdempotent | apps/mobile/lib/timeline-coalesce.ts:29-58 | On an ascending timeline coalescing twice is coalescing once |
| Coalesce.IdempotentIff | apps/mobile/lib/timeline-coalesce.ts:29-58 | Coalescing twice is coalescing once exactly when the last entries of adjacent maximal runs do not merge |
| Coalesce.OutOfOrderMergesAgain | apps/mobile/lib/timeline-coalesce.ts:42-46 | Out of order a second pass can merge more |
| ExceptionFuse.SessionFuse.ShouldDropException | packages/core/analytics/exception-dedupe.ts:40-78 | The decision and the stored counts after one report, for every way storage may fail |
| ExceptionFuse.RunsStayBounded | packages/core/analytics/exception-dedupe.ts:40-94 | Over any run at most fifty fingerprints are tracked, none counted beyond three or beyond what was kept |
| ExceptionFuse.DroppedOnlyAfterThree | packages/core/analytics/exception-dedupe.ts:40-78 | A report is dropped only after three kept ones of its fingerprint, whatever fails |
| ExceptionFuse.ReliableFuseIff | packages/core/analytics/exception-dedupe.ts:40-78 | With working storage exactly the reports from the fourth of a kind on are dropped, for the first fifty kinds of the session, and no others |

## Left out

- TimelineRows.BuildTimelineRows: asks that its searches end, which the code does not check (`SearchEndsIff`).
- CacheRuns.RunsStayConsistent: a save is three events (pass, answer, settlement); a failed save or batch is one event with its optimistic pass; a rollback that overwrites other passes relies on later invalidation and is not claimed. A refetched page is taken as the server's answer; for the "all" scope the client itself sets each total to the length of the merged first pages (packages/core/issues/queries.ts:185-193), which is the server's count only up to a page.
- TaskMessages.MergeSpec: for batches that repeat no number within themselves; for any batch `MergeIsOrdered`.
- TaskMessages.DeliveredSpec: likewise; for any batches `DeliveredIsOrdered`.
- TaskMessages.DeliveryOrderIsIrrelevant: likewise; a number repeated within a batch stays twice (`RepeatedInOneBatch`).
- MentionDrafts.ComposedDraftsSendIff: an edit inside a mention leaves no draft of this form; what any text with any markers is sent as is `Mentions.SerializeMentions`.
- MentionLinks.SentReadsBack: for ids the parser accepts (hexadecimal digits and dashes, or "all"), names that leave a label, and a typed text without `](mention://`, which the parser would take for a link itself. That the parser drops repeated targets is not modelled.
- Loading more of an assignee group (`useLoadMoreByAssigneeGroup`), and an answer of a load-more that arrives after the bucket has changed.
- Coalesce.CoalescingIsIdempotent: for ascending input, the order the timeline is loaded in; for any input see `IdempotentIff`.
- IssueMerge.ComparatorIsTheOrder: for two rows of one type; for mixed ones see `ComparatorOrdersIff`. Where the comparator is no order only union and total are claimed.
- Preferences.QueueSettlesRightIff: each save is derived from the view shown when it is made, so it changes every key it names.
- Refetch timing and `cancelQueries`: a refetch is a step that may happen at any point between events.
- Sub-issue children caches, parent bookkeeping, assignee-grouped boards, Gantt and project invalidations.
- The issue delete path (packages/core/issues/delete-cache.ts), labels, metadata and property pipelines.
- `Issue.title` stands for every field no cache rule reads; patch keys explicitly set to `undefined` are missing keys.
- The all-scope merge of assignee groups (packages/core/issues/queries.ts:276-340).
- Who resolved a comment (`resolved_by_*`).
- Workspace switch is one step: the microtask between slug change and rehydration is not modelled. Failing writes of the chat store, plain drafts, attachments and malformed blobs neither.
- Two visible composers adopting one row, which the code accepts; the model has one client and rivals that consume on the server.
- JSON, UTF-8, `Date` parsing and `localeCompare` are a faithful codec, byte sequences, integers and a rank. `Array.sort` is a stable sort. NaN and rounding do not occur. Strings are sequences of characters, not of UTF-16 units.
- How an exception's fingerprint is computed.
- HTTP and WebSocket plumbing, schemas, hooks, components and theming.
