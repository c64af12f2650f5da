# Verified model of the client's asynchronous state protocols

The site's client keeps server data on the screen through several small concurrent
protocols: a single-flight refresher and the polling resource built on it, a log tailer
that caches an append-only server log, an infinite feed that is scrolled, cached and
rebuilt, prefetch caches, a resumable upload, a held-key seek, and a navigation recorder.
This project models them together with the algorithms under them (log merging, width
bounded truncation, escaping, term lists, unique ids) and the two pieces of the Go backend
the client relies on, the feed handler and the incremental log query. It proves what they
keep in every run: whatever the order in which responses, timers, cancellations and user
calls arrive, including responses of requests that were superseded long ago.

How it is laid out:

- A protocol is a transition system in a module `...Protocol`: a state, the events, `Step`,
  an invariant, and theorems over all runs. Every `await` of the source ends a step, and a
  coroutine that was cancelled stays in the state and may still be answered.
- The object whose methods change fields is a class beside it. It carries its history `run`
  of events as a ghost field, and `Valid()` says that its fields are exactly where the
  protocol is after `run`. Each method adds its event to `run`, so its new state is fully
  determined and every theorem over runs is a theorem about the object.
- Source loops are methods with loops, proved equal to a specification function or against
  a description of their result; the laws are lemmas about that function or description.
- `readAt`, `writes`, `deliveries`, `range`, `issued` and the like are history: nothing in
  a step depends on them.

## Where the code does less than it says

- Coming back to a listing does not always give the list that was left. The feed source says
  it rebuilds a saved range (src/lib/infiniteFeedSource.ts:40), but what is public may have
  changed since, and the server reads on past hidden entries
  (backend/internal/api/video_feed.go:309-341), so a range read can also end behind the saved
  cursor. `HiddenSinceIsLost` and `RestoreCanOvershoot` are instances. The restored list
  starts with the one that was left exactly if, up to the last entry that was listed, nothing
  listed is gone and nothing left out has become public (`RestoreExtendsScroll`,
  `LeftListingComesBack`); list and cursor are the same exactly if what is public of the
  stretch is the same and the read ends where it was asked to (`RestoreEqualsScrollExactly`). What always
  holds is that the restored list is the stretch up to its own cursor as it is public now
  (`RestoreShowsItsStretch`). All this while the saved token is served and the read succeeds;
  with an expired token the page starts over on a new snapshot.
- A paused upload can go on. Pausing lowers the uploading flag while the handler is still
  suspended (src/admin/BackupPage.tsx:743-749), and the next upload clears the pause flag they
  share (src/admin/BackupPage.tsx:671). `PausedUploadFinalizes` is an instance. A pause holds
  until another upload is started (`PauseHoldsUntilRestart`), and
  `PausedUploadFinalizesExactly` says which paused runs can still call the finalizer: for the
  first upload of a page, those whose hash is there and that sleep between two attempts or are
  still opening their session (`LoneRunEscapes`).
- Clearing the log awaits the server and then calls the `resetAfterClear` it captured
  before (src/admin/LogsPage.tsx:432-446). If the filters changed meanwhile, the tail is
  reloaded with the old ones and shown under the new. `StaleClearDisagrees` is an instance,
  and `ClearNeedsItsFilters` says that equal filters are exactly what is needed.
- A timer can be pending beside a live read of the polling resource. A caller of a read that
  has ended lowers the reading flag and schedules when it wakes, even if another refresh has
  started a read by then (src/admin/AdminResource.ts:98-102). `TimerBesideRead` is an
  instance; `NoTimerBesideRead` says that reads go unannounced exactly when a caller is
  overtaken like that, and `TimerBesideReadExactly` which steps put a timer beside a read.
- With no retries allowed, such a timer can still start a read after a failure
  (`LeftOverSlips`); `FirstFailureBudgetExactly` says when, and that with retries allowed their
  number is never exceeded.
- Truncation keeps to its width exactly when the width is at least 1 or nothing had to be
  cut: an ellipsis is shown even where there is no room for it (`MiddleCutFits`).

Some remarks about functions taken by themselves. `mergeRuntimeLogSnapshot` announces older
entries when an empty buffer is filled to exactly its limit (`HasMoreWithoutEviction`), but a
poll never collects that much, and in every run of the hook the flag means what it should
(`HasMoreMeansEvicted`). Trimming the prefetch Maps gives up at an entry whose id is empty
(`FloodIsKept`, `LimitBreaks`); no caller passes one, since ids consist of a drive and a file
(backend/internal/catalog/schema.sql:3), and for other ids the limit holds
(`NamedRunsStayWithin`). `fetchInfiniteFeedRange` tests for progress, which the checks on
every response guarantee already (`ProgressCheckIsRedundant`).

## Model

| member | source | states |
|---|---|---|
| RefreshProtocol.NoLostRefresh | src/admin/RefreshRequest.ts:13-56 | in every run, a call whose flight ended uncancelled was followed by a load of that flight that started at or after the call |
| RefreshProtocol.CallsShareOneFollowUp | src/admin/RefreshRequest.ts:13-22 | loads never outnumber calls, and between two loads of one flight there is always a call: any number of calls during one load cost one follow-up |
| RefreshProtocol.CallDuringLoadIsFollowedUp | src/admin/RefreshRequest.ts:30-56 | a call made during a live load gets its follow-up load in the very step that resumes the run |
| RefreshProtocol.DeliveriesAreDisjoint | src/admin/RefreshRequest.ts:46-49 | whatever reached the handlers came from loads with pairwise disjoint, ordered intervals |
| RefreshProtocol.OneHealthyRead | src/admin/RefreshRequest.ts:24-56 | of all suspended reads at most one is not aborted, and it is the live flight's |
| RefreshProtocol.ZombieIsSilent | src/admin/RefreshRequest.ts:46-55 | a cancelled run that resumes later delivers nothing, starts nothing and leaves the live flight alone |
| RefreshProtocol.LiveSettlementIsDelivered | src/admin/RefreshRequest.ts:46-50 | nothing that settles the live flight is dropped: value, error or timeout reaches a handler |
| RefreshProtocol.TimeoutEndsTheLoad | src/admin/RefreshRequest.ts:38-56 | in every reachable state a live load that does not answer is aborted and ended by its timeout: exactly the timeout error is delivered, the flight ends or loads once more exactly if a call came during the load, and a late answer changes nothing |
| RefreshProtocol.AnswerEndsTheLoad | src/admin/RefreshRequest.ts:46-56 | the same for an answer, which neither a timeout nor a second answer after it changes |
| RefreshProtocol.StaleAnswerIsIgnored | src/admin/RefreshRequest.ts:31-46 | an answer of any load but the one a run waits for is not heard |
| RefreshProtocol.CallStartsOrJoins | src/admin/RefreshRequest.ts:13-22 | a call starts a load there and then if none is live, otherwise asks the live flight for one more |
| RefreshProtocol.CancelDetaches | src/admin/RefreshRequest.ts:24-28 | after a cancellation there is no flight, and what the detached run waited for is settled and aborted |
| RefreshProtocol.VersionsNeverGoBack | src/admin/RefreshRequest.ts:1-2 | when each value shows the server at a moment between request and response, values are applied in the order of those moments |
| RefreshProtocol.RunKeepsInv | src/admin/RefreshRequest.ts:13-56 | every run of calls, cancellations, answers, timeouts and resumptions keeps the invariant the theorems rest on |
| RefreshRequest.RefreshRequest.Refresh | src/admin/RefreshRequest.ts:13-22 | joins the live flight by its pending flag or opens one and starts its load; returns the flight joined |
| RefreshRequest.RefreshRequest.Cancel | src/admin/RefreshRequest.ts:24-28 | detaches the flight and aborts its controller, which settles its race unless it was settled |
| RefreshRequest.RefreshRequest.TimeoutFires | src/admin/RefreshRequest.ts:38-45 | a run still waiting is rejected with the timeout error and aborted; any other is left alone |
| RefreshRequest.RefreshRequest.ResumeRun | src/admin/RefreshRequest.ts:46-49 | what the resumed run hands to onValue or onError, if anything |
| RefreshRequest.RefreshRequest.ContinueRun | src/admin/RefreshRequest.ts:54-55 | the loop condition and the end of the run |
| RefreshRequest.ResumeWith | src/admin/RefreshRequest.ts:46-55 | resumption, handler and loop condition together are one step of the protocol, also when the handler cancels |
| ResourceProtocol.ShownValuesAreOrdered | src/admin/AdminResource.ts:84-115 | in every run the loads whose values were shown have disjoint, ordered intervals, and a value written by setData is never overwritten by a read that started before it |
| ResourceProtocol.DataNeverGoesBack | src/admin/AdminResource.ts:84-115 | with honest responses the data shown never goes back to an older server moment, nor to one before a local write |
| ResourceView.ViewShowsWhatWasDelivered | src/admin/AdminResource.ts:34-57 | in every run the data shown is the value last written, or the initial data; the values written by loads are exactly those delivered, in order; failure, error text, flags and the count of failures in a row are those of the deliveries |
| ResourceView.ShownValuesAreSourced | src/admin/AdminResource.ts:36-40 | every value ever shown is what the load of that number answered in the run, or what was set locally |
| ResourceView.OutcomeIsShown | src/admin/AdminResource.ts:36-48 | a value that reaches a live flight is shown at once, without error; a failure is reported at once, over the data there was |
| ResourceView.LocalWriteIsShown | src/admin/AdminResource.ts:110-115 | a local write is shown at once and ends the read that is out |
| ResourceView.IdleResourceStopsExactly | src/admin/AdminResource.ts:15-18 | an active resource nobody waits for stops polling exactly without an interval, or after a failure that may not or may no longer be retried, by the kind of failure and the failures in a row; otherwise its timer is the interval or the delay for so many failures |
| ResourceView.RetryDelayDoubles | src/admin/AdminResource.ts:123 | the first retry waits twice the interval, or two seconds without one, and each further failure doubles it up to the fifth, within 30 seconds |
| ResourceCalls.RefreshReads | src/admin/AdminResource.ts:92-98 | refreshing an active resource starts a read if none is out, or makes the one that is out read again, and shows that it loads or refreshes; otherwise it does nothing |
| ResourceCalls.ResumeReads | src/admin/AdminResource.ts:72-77 | resuming makes it active and reads at once, unless it is unauthorized |
| ResourceCalls.PauseStops | src/admin/AdminResource.ts:79-90 | pausing leaves no timer, no live read and nobody waiting, and keeps what is shown |
| ResourceCalls.InvalidateReadsAnew | src/admin/AdminResource.ts:105-108 | the read that is out is let go and, if the resource is active, a new one starts |
| ResourceCalls.SettingsTakeHold | src/admin/AdminResource.ts:59-70 | interval and retry policy take hold and leave the view and the reads alone |
| ResourceProtocol.PollerIsDisciplined | src/admin/AdminResource.ts:72-126 | a pending timer implies active, the reading flag down, not unauthorized; paused or unauthorized implies no timer, no live flight and nobody waiting |
| ResourceProtocol.NoTimerBesideRead | src/admin/AdminResource.ts:92-103 | throughout a run every live flight is announced by the reading flag, and so has no timer beside it, if and only if no caller of an ended flight ever wakes, in the same generation, while another flight is live |
| ResourceProtocol.TimerBesideReadExactly | src/admin/AdminResource.ts:59-126 | the steps that put a timer beside a live flight are exactly those that schedule while the flag is down or lower it: such a caller's wake, or a change of interval or retry policy after it, where the policy asks for a timer |
| ResourceProtocol.TimerBesideRead | src/admin/AdminResource.ts:98-102 | an instance: poll, answer, refresh, and only then the first caller wakes |
| ResourceProtocol.NeverStalls | src/admin/AdminResource.ts:92-126 | an active resource that should poll again has exactly the timer its policy asks for, or a caller is waiting for the live flight or about to be woken |
| ResourceProtocol.UnauthorizedIsAbsorbing | src/admin/AdminResource.ts:41-47 | after an authorization failure no event whatever starts another load or changes the failure |
| ResourceProtocol.RetryBudget | src/admin/AdminResource.ts:117-126 | during a failure streak undisturbed from outside, timer-started loads plus the remaining budget never exceed the budget at its start |
| RetryLimit.FirstFailureBudget | src/admin/AdminResource.ts:117-126 | from a failure on, whatever callers are still to wake, timers start at most maxRetries further reads, unless no retries are allowed and a timer slipped in beside a read that goes on |
| RetryLimit.FirstFailureBudgetExactly | src/admin/AdminResource.ts:98-126 | the bound holds for every undisturbed continuation if and only if retries are allowed or no timer slipped in: none is pending beside a live read that is still out, or has failed and loops, with no caller about to wake |
| RetryLimit.LeftOverSlips | src/admin/AdminResource.ts:98-126 | an instance of the exception, reached by two refreshes between an answer and the wake of its caller |
| ResourceProtocol.RetryDelayBounds | src/admin/AdminResource.ts:123 | the retry delay never decreases with consecutive failures, stops growing after five, and never exceeds 30 seconds |
| ResourceProtocol.ReachableInv | src/admin/AdminResource.ts:21-127 | every run keeps the invariant on waiters, flags, timer and shown values |
| AdminResource.AdminResource.StartRefresh | src/admin/AdminResource.ts:92-98 | refresh() up to its await: flags, timer, generation captured, flight joined |
| AdminResource.AdminResource.Resume | src/admin/AdminResource.ts:72-77 | moves the object by exactly the protocol's resume event |
| AdminResource.AdminResource.Pause | src/admin/AdminResource.ts:79-82 | moves the object by exactly the protocol's pause event |
| AdminResource.AdminResource.CancelReads | src/admin/AdminResource.ts:84-90 | cancel(): a new generation, no timer, no flight, not reading |
| AdminResource.AdminResource.Invalidate | src/admin/AdminResource.ts:105-108 | moves the object by exactly the protocol's invalidate event |
| AdminResource.AdminResource.SetData | src/admin/AdminResource.ts:110-115 | cancels, installs the local value and reschedules, as one event |
| AdminResource.AdminResource.SetInterval | src/admin/AdminResource.ts:59-63 | reschedules exactly when the interval changes |
| AdminResource.AdminResource.SetRetryOnError | src/admin/AdminResource.ts:65-70 | reschedules exactly when the retry policy changes |
| AdminResource.AdminResource.Schedule | src/admin/AdminResource.ts:117-126 | the timer after scheduling is the one the policy asks for, or none |
| AdminResource.AdminResource.RunResumes | src/admin/AdminResource.ts:36-48 | a resumed load runs the value or error handler and the refresher's loop condition, as one event |
| AdminResource.AdminResource.OnError | src/admin/AdminResource.ts:41-47 | counts the failure, pauses on an authorization failure, shows the error |
| AdminResource.AdminResource.WaiterWakes | src/admin/AdminResource.ts:98-102 | a woken caller of an old generation does nothing; a current one stops reading and reschedules |
| AdminResource.AdminResource.TimerFires | src/admin/AdminResource.ts:125 | the timer's callback is a refresh |
| LogMerge.MergeRuntimeLogEntries | src/admin/useRuntimeLogs.ts:40-58 | the pushing loop appends the entries whose ids are new, in order and once, and keeps the last `limit` |
| LogMerge.MergingBatchByBatch | src/admin/useRuntimeLogs.ts:40-58 | for increasing ids, merging batch after batch equals merging their concatenation, and keeps exactly the last `limit` entries |
| LogMerge.MergeWindows | src/admin/useRuntimeLogs.ts:45-57 | two windows of one log that overlap or touch merge to the joint window |
| LogMerge.MergeBounded | src/admin/useRuntimeLogs.ts:36-58 | bounding either side before a merge changes nothing |
| LogMerge.HasMoreExactly | src/admin/useRuntimeLogs.ts:82-83 | for any arguments, hasMore after a merge holds if and only if it held, an entry was evicted, or an empty buffer was filled to the brim |
| LogMerge.HasMoreWithoutEviction | src/admin/useRuntimeLogs.ts:83 | an instance of the last case for the bare function; it takes more new entries than a poll collects |
| LogMerge.HasMoreOfSmallBatches | src/admin/useRuntimeLogs.ts:82-83 | merging less than a bufferful, hasMore holds if and only if it held or an entry was evicted |
| LogMerge.MergedReportsLatest | src/admin/useRuntimeLogs.ts:75-100 | a merged snapshot reports the latest counts and storage and holds the merged entries; a reset or a first snapshot is taken over |
| LogMerge.LogRefreshRetryDelayBounds | src/admin/useRuntimeLogs.ts:60-66 | the log poller's delay starts at 3 seconds, doubles with each further failure and reaches its bound of 30 seconds at the fifth |
| LogProtocol.BufferAgreesWithLog | src/admin/useRuntimeLogs.ts:119-295 | in every run, outside history mode, the buffer is the last min(10,000, n) of what the current filter selects from the server log between the last tail load and the stored cursor: no gap, no duplicate, nothing superseded |
| LogProtocol.HasMoreMeansEvicted | src/admin/useRuntimeLogs.ts:212-247 | in every run, an answer that completes a poll leaves hasMore if and only if it held or the merge evicts an entry; what a poll collects stays below the buffer's limit |
| LogProtocol.StretchOnlyGrows | src/admin/useRuntimeLogs.ts:206-248 | the stretch the buffer stands for restarts only at a tail, a reset or a clear; otherwise its start stays and its end never moves back |
| LogProtocol.SupersededIsSilent | src/admin/useRuntimeLogs.ts:140-143 | answers and failures of superseded requests change nothing visible, nor the current request |
| LogProgress.TickPollsExactly | src/admin/useRuntimeLogs.ts:195-222 | a tick asks for what follows the stored cursor under the current filters exactly when the tailer is ready, not busy and not in history |
| LogProgress.PollCatchesUp | src/admin/useRuntimeLogs.ts:233-248 | a poll's last answer brings buffer and cursor to the end of its stretch |
| LogProgress.PollGoesOn | src/admin/useRuntimeLogs.ts:212-238 | a full answer, short of the fifth and while somebody looks, makes it ask on from where it ended, showing nothing yet |
| LogProgress.ResetReplaces | src/admin/useRuntimeLogs.ts:225-231 | a reset answer replaces the buffer by the stretch it brings |
| LogProgress.TickShowsTheLog | src/admin/useRuntimeLogs.ts:195-250 | from a ready idle tailer a tick and an answer that reaches the end of the log leave the newest selection of everything since the start of the stretch |
| LogProgress.ReloadAsksExactly | src/admin/useRuntimeLogs.ts:125-167 | a reload asks for the tail unless it may not interrupt a request in force |
| LogProgress.TailShows | src/admin/useRuntimeLogs.ts:168-176 | its answer shows the stretch it brings, sets the cursor and ends history mode |
| LogProgress.NewFiltersStartOver | src/admin/useRuntimeLogs.ts:284-295 | new filters empty what is shown and ask for their tail at once |
| LogProgress.ClearStartsOver | src/admin/useRuntimeLogs.ts:356-374 | a clear empties the entries, counts and cursor and asks for the tail at once |
| LogProgress.HistoryAsksExactly | src/admin/useRuntimeLogs.ts:262-273 | older entries are asked for exactly when there are some before those shown |
| LogProgress.HistoryShows | src/admin/useRuntimeLogs.ts:274-281 | the answer is shown, in history mode, and the cursor stays |
| LogProgress.FailureFrees | src/admin/useRuntimeLogs.ts:251-259 | a failure changes nothing shown and frees the tailer to ask again |
| LogProgress.UnmountSupersedes | src/admin/useRuntimeLogs.ts:119-123 | after unmounting nothing asked for is current |
| LogProtocol.ClearNeedsItsFilters | src/admin/LogsPage.tsx:432-446 | the callback that runs after a clear keeps the cache right in every state and for every answer if and only if it was made with the filters still in force |
| LogProtocol.StaleClearDisagrees | src/admin/useRuntimeLogs.ts:356-374 | an instance where the callback made before a change of filters leaves entries the current filter does not select |
| LogProtocol.RunKeepsInv | src/admin/useRuntimeLogs.ts:119-374 | every run of polls, reloads, filter changes, clears, history loads and late answers keeps the invariant |
| RuntimeLogs.RuntimeLogs.InvalidateActiveRequest | src/admin/useRuntimeLogs.ts:119-123 | supersedes every request |
| RuntimeLogs.RuntimeLogs.BeginRequest | src/admin/useRuntimeLogs.ts:125-138 | refused exactly when a request is active and may not be interrupted; otherwise it supersedes the others |
| RuntimeLogs.RuntimeLogs.FinishRequest | src/admin/useRuntimeLogs.ts:145-147 | ends a request; only its own activity is cleared |
| RuntimeLogs.RuntimeLogs.LoadTail | src/admin/useRuntimeLogs.ts:149-167 | moves the hook by exactly the protocol's reload event |
| RuntimeLogs.RuntimeLogs.TailAnswered | src/admin/useRuntimeLogs.ts:168-191 | installs a tail only while its request is current, and finishes the request |
| RuntimeLogs.RuntimeLogs.PollLogs | src/admin/useRuntimeLogs.ts:195-209 | moves the hook by exactly the protocol's poll event |
| RuntimeLogs.RuntimeLogs.PollBatch | src/admin/useRuntimeLogs.ts:212-248 | one batch of the catch-up loop: go on, or merge all collected batches in one update |
| RuntimeLogs.RuntimeLogs.PollAnswered | src/admin/useRuntimeLogs.ts:214-259 | an answer to a poll moves the hook by exactly one protocol event |
| RuntimeLogs.RuntimeLogs.LoadOlder | src/admin/useRuntimeLogs.ts:262-273 | enters history mode exactly when there is something older |
| RuntimeLogs.RuntimeLogs.OlderAnswered | src/admin/useRuntimeLogs.ts:274-281 | shows the older entries only while their request is current |
| RuntimeLogs.RuntimeLogs.ChangeFilters | src/admin/useRuntimeLogs.ts:284-295 | forgets everything of the old filters and reloads with the new |
| RuntimeLogs.RuntimeLogs.ResetAfterClear | src/admin/useRuntimeLogs.ts:356-374 | empties the snapshot, forgets the cursor and reloads with the callback's own filters |
| RuntimeLogs.MergeSnapshot | src/admin/useRuntimeLogs.ts:75-100 | the merged snapshot: a reset replaces, otherwise entries are merged and hasMore is recomputed |
| LogServer.QueryLogsFromCursor | backend/internal/applog/cursor.go:263-318 | the scan over any number of log files returns exactly what the filter selects, of the log they make up, between the given and the returned cursor; a batch that is not full reached the end of the log, a full one ends at its last match |
| LogServer.ScanFile | backend/internal/applog/cursor.go:288-304 | one file read to its end or to the match that fills the room left |
| LogServer.AnswerFromCursor | backend/internal/applog/cursor.go:86-93 | the incremental answer built from the scan satisfies, for whatever poll it is given to and whatever was appended to the log since, all that the tailer's theorems assume of an increment |
| FeedStore.FeedStore.Store | backend/internal/api/video_feed.go:211-274 | a list kept under its key is shared with its token, exactly; the token returned names exactly the list it was asked for, no earlier token changes its list, and only expired feeds or, when it is full, those read no later than all others make room |
| FeedStore.FeedStore.Load | backend/internal/api/video_feed.go:276-288 | loads if and only if the token is present and unexpired, and then the very list the token was handed out for |
| FeedStore.FeedStore.Prune | backend/internal/api/video_feed.go:290-296 | leaves exactly the unexpired feeds, and the index entries that point at them |
| FeedStore.FeedStore.Delete | backend/internal/api/video_feed.go:298-307 | removes one feed and exactly the index entry that points at it |
| FeedStore.FeedStore.Oldest | backend/internal/api/video_feed.go:245-254 | the scan finds a feed read no later than any other |
| FeedStore.FeedStore.MakeRoom | backend/internal/api/video_feed.go:245-258 | leaves room for one more by dropping only feeds read no later than every one that stays |
| FeedHandler.HandleVideoFeed | backend/internal/api/video_feed.go:64-145 | malformed requests fail and lost tokens are gone, exactly; every other answer passes the client's checks and shows the public part of its stretch of the one list the token was handed out for |
| FeedServer.LoadVisibleBatch | backend/internal/api/video_feed.go:311-341 | the chunked loops return the public entries between the cursors and stop where the batch is full or the snapshot ends |
| FeedServer.BatchHolds | backend/internal/api/video_feed.go:309-341 | a batch holds at most `count` public entries, exactly `count` unless the snapshot ran out, always advances, and a full one stops right at its last entry |
| FeedRange.FetchInfiniteFeedRange | src/lib/infiniteFeedSource.ts:41-65 | against any server the loop terminates with what the range read is; each request starts where the one before was answered to and asks for all that is left, or for 240 entries if more is left |
| FeedRange.AcceptedExactly | src/data/videos.ts:137-156 | a response is accepted exactly if it stays within a snapshot, advances or is exhausted at its end, and carries the token asked with or one to go on with |
| FeedRange.RangeEndsExactly | src/data/videos.ts:127-156 | over any server, a read expires exactly if a request it gets to is answered that the feed is gone, fails exactly if one fails, is refused exactly if a response makes no sense, is aborted exactly at an abort it sees, and succeeds exactly at the first response that completes the range |
| FeedRange.RangeShowsItsStretch | src/lib/infiniteFeedSource.ts:41-65 | wherever a truthful server cuts its batches and however visibility changes between them, a range read shows exactly the entries of its stretch that were public when their batch was answered, at least as far as asked or to the end |
| FeedRange.FreshRangeShowsItsStretch | src/lib/useInfiniteListing.ts:218-232 | a range read from the empty cursor, over however many batches, shows its stretch of the one snapshot its first answer was taken from |
| FeedRange.ProgressCheckIsRedundant | src/lib/infiniteFeedSource.ts:60-62 | after the checks on responses the progress error can never be raised, and a successful read is complete |
| FeedRange.OwnRangeEnds | src/data/videos.ts:137-156 | against the site's own server every response passes the checks and the read ends where `RangeEnd` says |
| FeedRange.RangeEndsWhereAsked | src/lib/infiniteFeedSource.ts:46-63 | the read never ends before the end asked for, and ends exactly there if and only if its last batch fits or the snapshot ends |
| FeedRange.OneBatchEndsWhereAsked | src/lib/infiniteFeedSource.ts:51-58 | for one batch: exactly when nothing in the stretch was hidden as it was answered, or nothing follows it |
| InfiniteListing.AppendUniqueVideos | src/lib/infiniteListing.ts:109-121 | the filtering loop appends the first occurrence of each new id, in order |
| InfiniteListing.ListIsOneStretch | src/lib/infiniteListing.ts:123-186 | in every run, with responses delayed, reordered or replayed and each answered under a visibility of its own, the items are the entries of one snapshot, from the start to the cursor, that were public when their response was answered, each id once; an exhausted list reaches the snapshot's end |
| InfiniteListing.FirstLoadIsHonest | src/lib/useInfiniteListing.ts:247-295 | the hook's own first load - reset, load and response under one id, from any state - is an honest run whenever its response is, and leaves exactly the list its response shows |
| InfiniteListing.RangeIsHonest | src/lib/useInfiniteListing.ts:197-211 | what a range read brings, filtered by deletions, is an honest response: from a saved token or from the empty cursor |
| InfiniteListing.MaskIsWhatResponsesSaw | src/lib/infiniteListing.ts:161-181 | that record of visibility grows by what each applied response saw, and by nothing else |
| InfiniteListing.NextPageExtends | src/lib/infiniteListing.ts:193-205 | there is a next request, of the page size, unless the list is exhausted, and its answer, if nothing supersedes it, is applied and carries the list on from its cursor |
| InfiniteListing.CursorNeverMovesBack | src/lib/infiniteListing.ts:154-185 | without a restart the cursor never moves back, no item leaves the list, and the token stays |
| InfiniteListing.ResponsesApplyOnce | src/lib/infiniteListing.ts:161-168 | a response that moved the cursor is ignored whenever it is replayed, however long after |
| InfiniteListing.EmptyResponsesAreIdempotent | src/lib/infiniteListing.ts:161-181 | one that did not move it adds nothing, and replaying it repeats what it said |
| ListingStatus.StatusIsCoherent | src/lib/infiniteListing.ts:123-186 | after any actions an error is shown exactly in the error status, what is loading says whether there is something to add to, and key and page size are those of the last restart |
| ListingStatus.FailureLosesNothing | src/lib/infiniteListing.ts:182-184 | a failed load says so and loses nothing, and the same page is asked for next; a superseded failure is not heard |
| ListingStatus.ResponseSettles | src/lib/infiniteListing.ts:161-181 | an applied response ends the load without error at its own moment and reports the size of its snapshot; any other changes nothing |
| ListingStatus.LoadTakesOver | src/lib/infiniteListing.ts:154-160 | a load takes over under its id, over what is listed |
| ListingStatus.CachedListIsShown | src/lib/infiniteListing.ts:140-153 | a cached list is listed as it was cached and goes on from there |
| ListingStatus.CacheServesExactly | src/lib/infiniteListing.ts:71-87 | for a saved list the cache serves exactly if it is of the saved snapshot and got at least as far |
| RestoreListing.RestoreShowsItsStretch | src/lib/useInfiniteListing.ts:282-295 | for every truthful server and however visibility changed, the restored list is exactly what is public now, and not deleted here, of the stretch up to its own cursor, which is not before the saved one |
| RestoreListing.RestoreExtendsScroll | src/lib/infiniteFeedSource.ts:41-65 | the restored list starts with the scrolled one if and only if, up to its last entry, nothing listed has been hidden or deleted since and nothing left out has become public |
| RestoreListing.RestoreEqualsScrollExactly | src/lib/infiniteListing.ts:161-181 | against the site's own server, restore equals scrolling, list and cursor, if and only if what is public of the scrolled stretch is what was, and the read ends there: the saved count is the whole snapshot or the last batch fits |
| RestoreListing.SteadyRestoreExtends | src/lib/infiniteFeedSource.ts:41-65 | while visibility has not changed since the scroll the restored list starts with the scrolled one, also over a snapshot that repeats ids |
| RestoreListing.RestoreOfUntouchedSnapshot | src/lib/infiniteFeedSource.ts:40-65 | while everything is public the range read ends where it was asked to |
| RestoreListing.RestoreCanOvershoot | backend/internal/api/video_feed.go:309-341 | an instance where one hidden entry makes the range read show more than was scrolled though nothing changed |
| RestoreListing.HiddenSinceIsLost | src/lib/useInfiniteListing.ts:282-295 | an instance where the whole snapshot was scrolled and is read back, and an entry hidden in between is gone from the restored list |
| RestoreListing.CacheCoversRestore | src/lib/infiniteListing.ts:71-87 | a cached list that passes the restore check is of the saved snapshot and covers the saved progress; it starts with the saved list if and only if the two saw the same up to its last entry, as when it is the list that was left |
| RestoreListing.EntryRoundTrip | src/lib/listingScrollRestore.ts:33-62 | an entry written is read back unless it could not be restored, and everything read could have been written |
| RestoreListing.LeftListingComesBack | src/lib/listingScrollRestore.ts:134-162 | an entry saved on leaving and resolved for the same query makes the first request cover all saved progress under the saved token; the list it yields is what is public of that stretch now, and starts with the list that was left if and only if both saw the same up to its last entry |
| RestoreListing.OtherQueriesStartAfresh | src/lib/listingScrollRestore.ts:134-162 | an entry of another query restores neither token nor progress |
| NavigationHistory.NavigationHistory.Record | src/lib/navigationHistory.ts:7-23 | the recorder stands on the recorded key, and its fields are those of the specification |
| NavigationHistory.RecordKeepsSegment | src/lib/navigationHistory.ts:7-23 | recording any committed transition keeps the keys a contiguous piece of the browser's stack with the index on the entry shown |
| NavigationHistory.RecordTracksPiece | src/lib/navigationHistory.ts:7-23 | the recorder knows exactly the piece of the stack it can know: a push extends it to the new top, a replacement or a move within leaves it, only a move outside starts over |
| NavigationHistory.PieceAfterRun | src/lib/navigationHistory.ts:54-63 | the same over every run: its keys are that piece, key by key |
| NavigationHistory.NothingIsForgotten | src/lib/navigationHistory.ts:7-23 | over a run that moves to no entry outside what was recorded the piece still starts where it did |
| NavigationHistory.SegmentAfterRun | src/lib/navigationHistory.ts:54-63 | the same over every run of transitions with fresh keys |
| NavigationHistory.Observe | src/lib/navigationHistory.ts:54-63 | a recorder subscribed to a router holds, after all its transitions, exactly the piece that starts at the entry it found |
| NavigationHistory.NavigationHistory.BackDelta | src/lib/navigationHistory.ts:25-29 | a delta is offered exactly for the current key and a key recorded behind it, and points at that key |
| NavigationHistory.NavigationHistory.EverythingKnownIsReachable | src/lib/navigationHistory.ts:25-37 | a delta is offered for every entry behind the current one from the first recorded on and for no other, and going back exactly past that first one |
| NavigationHistory.NavigationHistory.BackDeltaLandsOnTarget | src/lib/navigationHistory.ts:25-29 | moving the browser by an offered delta is possible and lands exactly on the target |
| NavigationHistory.NavigationHistory.BackDeltaMissesOnlyTheUnseen | src/lib/navigationHistory.ts:25-29 | for an entry behind the current one a delta is refused if and only if it lies before the piece the recorder has seen |
| NavigationHistory.NavigationHistory.CanGoBackHasPredecessor | src/lib/navigationHistory.ts:35-37 | going back is offered only where the browser has a predecessor, and it is the one recorded |
| Chunks.ChunksMakeTheFile | src/admin/BackupPage.tsx:682-684 | as many chunks as the ceiling of size by chunk size, laid end to end, are the file |
| ChunkedUpload.PutChunk | src/admin/BackupPage.tsx:686-705 | a chunk is acknowledged if and only if one of three attempts is, after failures that nobody interrupted |
| ChunkedUpload.HandleUpload | src/admin/BackupPage.tsx:668-722 | one run with what it sees when it looks at the flag: the finalizer is called if and only if every chunk was received before or acknowledged, the hash is there and no look saw a pause; then the server's chunks laid end to end are the file |
| ChunkedUpload.FinalizedUploadIsTheFile | src/admin/BackupPage.tsx:679-707 | earlier and new chunks together are the file, whatever mix of them the session had |
| ChunkedUpload.ChunkIsGivenUpExactly | src/admin/BackupPage.tsx:679-706 | a chunk is given up if and only if a pause is seen before it, three attempts fail, a pause is seen before an attempt that is made, or a pause or abort after one that failed |
| ChunkedUpload.EnsureUploadSession | src/admin/BackupPage.tsx:635-666 | the session resumed or begun, and the note of it that is kept or dropped |
| ChunkedUpload.ReopeningResumes | src/admin/BackupPage.tsx:635-666 | choosing the same file again resumes the session opened for it while the server knows it, and another file never does |
| ChunkedUpload.NoteIsKeptExactly | src/admin/BackupPage.tsx:636-651 | the note is dropped exactly when its session cannot be had and none is begun in its place |
| UploadProtocol.FinalizedHasEveryChunk | src/admin/BackupPage.tsx:668-722 | whichever uploads overlap, a run calls the finalizer only with every chunk received before or acknowledged to it, and then the chunks laid end to end are the file |
| UploadProtocol.ThreeAttempts | src/admin/BackupPage.tsx:686-706 | a chunk is tried three times at most: two failures wait and try the same chunk again, a third gives up |
| UploadProtocol.AcknowledgedGoesOn | src/admin/BackupPage.tsx:679-699 | an acknowledged chunk is on record and the next one the server lacks is tried, or the hash awaited, or the finalizer called |
| UploadProtocol.SessionOpens | src/admin/BackupPage.tsx:677-681 | an opened session is taken as it is, from the first chunk the server lacks; without one the run ends |
| UploadProtocol.HashSettlesExactly | src/admin/BackupPage.tsx:708-709 | the hash is there exactly if it was computed to its end, and a run that needs it and has it not ends |
| UploadProtocol.StartsAndEnds | src/admin/BackupPage.tsx:669-740 | an accepted start begins a run and clears the flag; a run's end lowers the flags that keep another from starting |
| UploadProtocol.PauseHoldsUntilRestart | src/admin/BackupPage.tsx:681-709 | from a pause or a cancellation until another upload is started no run calls the finalizer, whatever settles and whatever is pressed |
| UploadProtocol.PausedRunEnds | src/admin/BackupPage.tsx:681-709 | while the flag is up a run sends no chunk and calls no finalizer: after each event it has returned, is where it was, or waits for its hash |
| UploadProtocol.FinalizesExactly | src/admin/BackupPage.tsx:668-741 | in any state the page can be in, a run can still call the finalizer if and only if it has done so or is viable: not returned, its hash there or still computed, not waiting for the answer of an aborted attempt |
| UploadProtocol.PausedUploadFinalizesExactly | src/admin/BackupPage.tsx:743-755 | a run paused or cancelled before it called the finalizer can still call it if and only if neither abort reaches what it waits for, and then only after another upload is started |
| UploadProtocol.LoneRunEscapes | src/admin/BackupPage.tsx:668-749 | for the first upload of a page: exactly if its hash is there and it sleeps between attempts or is opening its session |
| UploadProtocol.PausedUploadFinalizes | src/admin/BackupPage.tsx:669-749 | an instance: paused asleep after a failed attempt, it goes on and is finalized once another upload is started |
| UploadProtocol.RunKeepsInv | src/admin/BackupPage.tsx:668-741 | every history of the page keeps the invariant of its suspended runs |
| UploadPage.UploadPage.HandleUpload | src/admin/BackupPage.tsx:668-677 | a start, refused while uploading or finalizing; otherwise it clears the shared pause flag |
| UploadPage.UploadPage.HandlePause | src/admin/BackupPage.tsx:743-749 | the pause event: flag, both aborts, uploading lowered |
| UploadPage.UploadPage.HandleCancelUpload | src/admin/BackupPage.tsx:751-755 | nothing when no upload is shown, otherwise the cancel event: flag and both aborts |
| UploadPage.UploadPage.Continue | src/admin/BackupPage.tsx:679-709 | the chunk loop from an index on: the next attempt, or the hash and the last look |
| UploadPage.UploadPage.PutSettles | src/admin/BackupPage.tsx:690-706 | the answer to an attempt moves the page by exactly one event: next chunk, wait, or return |
| UploadPage.UploadPage.DelayEnds | src/admin/BackupPage.tsx:686-696 | the next attempt begins with a look at the flag |
| UploadPage.UploadPage.HashSettles | src/admin/BackupPage.tsx:708-722 | a settled hash is kept, or awaited already leads to the last look and the finalizer |
| UploadPage.UploadPage.Return | src/admin/BackupPage.tsx:732-740 | the finally block: both flags lowered, the abort reference cleared, the hash reference only if it is its own |
| StreamedHash.Sha256Blob | src/lib/sha256.ts:13-37 | a hash is returned if and only if no inspection saw the abort, and it is the hash of the whole blob |
| SeekProtocol.BurstsCommitOnce | src/components/VideoPlayer.tsx:891-1036 | in every reachable state a target is set exactly while keys are held and exactly while the idle timer is pending; every burst ends in one seek, except one abandoned by unbinding |
| SeekProtocol.SeeksAreSums | src/components/VideoPlayer.tsx:927-953 | with a fixed duration each committed seek is the saturating sum of its burst's 15-second steps and lies within the media |
| SeekProtocol.FifteenSecondsEach | src/components/VideoPlayer.tsx:132-134 | away from the ends a burst seeks fifteen seconds ahead for each right arrow and fifteen back for each left |
| SeekProtocol.PressAims | src/components/VideoPlayer.tsx:927-936 | a press moves the target by fifteen seconds within the media, holds its key and starts the timer; without a known duration it does nothing |
| SeekProtocol.WhatCommits | src/components/VideoPlayer.tsx:938-1006 | with a target, letting go of the last key, the idle timer and every interruption commit exactly one seek; letting go of one of two keys and the player's clock do not |
| SeekProtocol.QuietOtherwise | src/components/VideoPlayer.tsx:938-1035 | without a target only a press does anything, and after unbinding nothing does |
| KeyboardSeek.KeyboardSeek.Preview | src/components/VideoPlayer.tsx:927-936 | a press moves the closure by exactly the protocol's press event |
| KeyboardSeek.KeyboardSeek.Commit | src/components/VideoPlayer.tsx:938-953 | returns the seek, clamped to the present duration, and clears target, timer and held keys |
| KeyboardSeek.KeyboardSeek.KeyUp | src/components/VideoPlayer.tsx:989-996 | a release commits exactly when no seek key is held any more, and the player is sent exactly the seek on record |
| KeyboardSeek.KeyboardSeek.IdleTimerFires | src/components/VideoPlayer.tsx:902-908 | the idle timer commits what a lost key-up left behind |
| SubtitleText.TakeWidth | src/lib/subtitleLabel.ts:160-170 | the longest prefix that fits the width |
| SubtitleText.TakeWidthFromEnd | src/lib/subtitleLabel.ts:172-183 | the longest suffix that fits the width |
| SubtitleText.TruncateMiddle | src/lib/subtitleLabel.ts:147-153 | the text itself if it fits, otherwise the longest prefix for half the budget, an ellipsis, and the longest suffix for what is left |
| SubtitleText.TruncateEnd | src/lib/subtitleLabel.ts:155-158 | the text itself if it fits, otherwise the longest prefix with room for an ellipsis |
| SubtitleText.MiddleCutFits | src/lib/subtitleLabel.ts:147-153 | the result keeps to the width if and only if the width is at least 1 or nothing was cut; prefix and suffix kept do not overlap |
| SubtitleText.MiddleCutIsUnique | src/lib/subtitleLabel.ts:147-153 | that description leaves exactly one result |
| SubtitleText.NarrowMiddleCut | src/lib/subtitleLabel.ts:147-153 | in text of one column a character the cut is the first half, the ellipsis and the last characters, in exactly these numbers |
| SubtitleText.NarrowEndCut | src/lib/subtitleLabel.ts:155-158 | the same for the cut at the end |
| SubtitleText.WidthByBlock | src/lib/subtitleLabel.ts:128-144 | two columns exactly for the characters of eight blocks |
| SubtitleText.MiddleCutIsIdempotent | src/lib/subtitleLabel.ts:147-153 | cutting again changes nothing, for every width |
| SubtitleText.EndCutFits | src/lib/subtitleLabel.ts:155-158 | the same condition for the cut at the end |
| SubtitleText.EndCutIsIdempotent | src/lib/subtitleLabel.ts:155-158 | cutting the end again changes nothing, for every width |
| EscapeHtml.EscapeIsOnePass | src/lib/subtitleLabel.ts:62-69 | the five replacements in a row are one substitution per character |
| EscapeHtml.EscapeIsInert | src/lib/subtitleLabel.ts:62-69 | no raw angle bracket or quote is left |
| EscapeHtml.UnescapeEscape | src/lib/subtitleLabel.ts:62-69 | a left-to-right decoder undoes the escaping |
| EscapeHtml.EscapeIsInjective | src/lib/subtitleLabel.ts:62-69 | different texts stay different |
| DriveId.MakeUniqueDriveId | src/admin/driveId.ts:18-30 | the loop ends after at most as many taken candidates as there are ids, with the first candidate that is not taken |
| DriveId.CandidatesDiffer | src/admin/driveId.ts:25-28 | no candidate comes twice |
| DriveId.CandidatesCountFromTwo | src/admin/driveId.ts:26-28 | the base is tried bare, then numbered from two on |
| DriveId.DecimalReads | src/admin/driveId.ts:27 | numbers are written in decimal without a leading zero |
| DriveId.TriedFits | src/admin/driveId.ts:26-28 | candidates that are all taken are no more than the ids there are |
| DriveId.NormalizeIsIdempotent | src/admin/driveId.ts:6-12 | a normal name has letters, digits and single inner hyphens only, and normalizing it again changes nothing |
| DriveId.SlugKeepsCharacters | src/admin/driveId.ts:10-11 | the letters and digits of the name are kept, in order |
| DriveId.LettersAndDigitsStay | src/admin/driveId.ts:8-11 | a name of small letters and digits stays as it is |
| DriveId.OthersAreOneHyphen | src/admin/driveId.ts:10 | whatever stands between two of them, however much, becomes one hyphen |
| TagTerms.PiecesCutAtSeparators | src/admin/TagsPage.tsx:855-865 | the pieces hold no separator, and what lies between them in the text is nothing but non-empty runs of separators |
| TagTerms.TermsAreClean | src/admin/TagsPage.tsx:855-865 | terms hold none of the separators and no outer white space, and prefixes are upper case without any |
| TagTerms.NothingElseSeparates | src/admin/TagsPage.tsx:855-857 | a text without any of the six separators is one keyword |
| TagTerms.UniqueTerms | src/admin/TagsPage.tsx:867-878 | the loop keeps the first trimmed, non-empty spelling of each term, whatever its case |
| TagTerms.UniqueTermsIsIdempotent | src/admin/TagsPage.tsx:867-878 | it has nothing left to do on its own results |
| TagTerms.RoundTrip | src/admin/TagsPage.tsx:851-865 | a term list joined to a string and split again is itself |
| TagTerms.TermListsAreWhatSplittingGives | src/admin/TagsPage.tsx:855-878 | the lists splitting can produce are exactly those of whole, trimmed, normal terms that differ in more than case |
| TagTerms.AddAppends | src/admin/TagsPage.tsx:719-727 | adding a pill through the string form appends the term, unless it is empty or there in any case |
| TagTerms.RemoveFilters | src/admin/TagsPage.tsx:717-732 | removing a pill through the string form is filtering the list, and a list that may not be empty keeps its last term |
| TagTerms.RemoveUndoesAdd | src/admin/TagsPage.tsx:719-732 | removing the pill just added gives the list there was |
| PrefetchProtocol.PrefetchIsShared | src/data/videos.ts:188-199 | a prefetch returns a request for its video that is not too old and the newest begun for it; another is begun exactly if none is held live |
| PrefetchProtocol.HandedOutAtMostOnce | src/data/videos.ts:225-233 | over a whole run no request is handed out by two consumptions |
| PrefetchProtocol.HandedOutIsNewest | src/data/videos.ts:225-233 | what is consumed was begun for that video within the last 30 seconds and is the last request begun for it |
| PrefetchProtocol.ConsumeExactly | src/data/videos.ts:225-233 | a consumption is served exactly from a live entry of its video, unless the video is deleted |
| PrefetchProtocol.PrefetchThenConsume | src/data/videos.ts:188-233 | for 30 seconds from when it was begun, consuming after a prefetch hands out the very request it returned, once |
| PrefetchProtocol.DeletionForgets | src/data/videos.ts:276-280 | a deleted video is forgotten, by the recommendations with everything else, and no detail of it is handed out |
| PrefetchProtocol.SettlementSparesOthers | src/data/videos.ts:202-216 | a settled request removes its own entry if that is still there and no other |
| PrefetchProtocol.MapOrderIsExpiryOrder | src/data/videos.ts:188-200 | while the clock does not go back the Map's order is the order of expiry |
| PrefetchProtocol.TrimDropsTheEarliest | src/data/videos.ts:241-247 | a live entry dropped by trimming expires no later than any entry kept, and the Map stays full |
| PrefetchProtocol.LimitBreaks | src/data/videos.ts:241-247 | a Map within its limit exceeds it after a prefetch if and only if the oldest of twenty live entries has an empty id |
| PrefetchProtocol.NamedRunsStayWithin | src/data/videos.ts:188-247 | without empty ids the limit holds in every run |
| PrefetchProtocol.FloodIsKept | src/data/videos.ts:241-247 | behind an empty id any number of entries is kept |
| PrefetchCache.PrefetchCache.Prefetch | src/data/videos.ts:188-218 | prunes, shares a live request or begins one, and trims, as one protocol event |
| PrefetchCache.PrefetchCache.Consume | src/data/videos.ts:225-233 | takes the entry away and hands out its request unless it expired; a deleted video has none |
| PrefetchCache.PrefetchCache.RequestDropped | src/data/videos.ts:202-216 | exactly the entry of that request is gone |
| PrefetchCache.PrefetchCache.Prune | src/data/videos.ts:235-239 | deleting while iterating leaves exactly the live entries in order |
| PrefetchCache.PrefetchCache.Trim | src/data/videos.ts:328-337 | the trimming loop drops from the front while over the limit, up to an empty id |
| PrefetchCache.PrefetchCache.VideoDeleted | src/data/videos.ts:276-280 | details forget the video, recommendations forget everything |
| TagCacheProtocol.CacheIsCurrent | src/data/videos.ts:642-673 | in every run the cached tags, the pending request and every request that still remembers the version come from after the last invalidation |
| TagCacheProtocol.FetchIsCurrent | src/data/videos.ts:656-673 | no call is answered with tags asked for before the last invalidation preceding it |
| TagCacheProtocol.RequestsAreShared | src/data/videos.ts:657-672 | between two invalidations a second request begins only after the first has itself been finished, without an answer |
| TagCacheProtocol.AnswerIsCached | src/data/videos.ts:663-667 | an answer of the present version is what calls get from then on; another leaves the cache as it is |
| TagCacheProtocol.FinishFreesTheNext | src/data/videos.ts:668-673 | a request finished with nothing cached frees the next call to ask again |
| TagCacheProtocol.InvalidationAsksAnew | src/data/videos.ts:650-654 | after an invalidation the next call asks anew |
| TagCache.TagCache.FetchTags | src/data/videos.ts:656-673 | returns cached tags, the pending request or a new one, as one protocol event |
| TagCache.TagCache.InvalidateTagsCache | src/data/videos.ts:650-654 | moves the cache by exactly the protocol's invalidate event |
| TagCache.TagCache.RequestAnswered | src/data/videos.ts:663-666 | stores an answer only if no invalidation came between |

## Left out

- Subscribers and re-entrancy: listeners are not modelled, and are assumed not to call back into the resource while it notifies them; loads do not throw synchronously.
- Rejections that are not errors: the resource turns them into an error of its own (src/admin/AdminResource.ts:42), here every rejection already is one.
- Timer callbacks: they run as tasks of their own, so the model lets a due timer fire only when every settled run and ready caller has been served; the time that passes until then is not modelled.
- The log hook's flags for loading, refreshing, loading older entries and errors, and its visibility and retry timers: they do not feed back into the cached entries. A poll's looks at document visibility are inputs.
- Identity comparison of entry arrays (src/admin/useRuntimeLogs.ts:85) is comparison of values here, and of the write health only the number of failed writes is compared.
- Older pages of the log: in history mode the buffer is whatever the answer held; the theorems speak of the buffer outside history mode.
- The log store's cursors as file fingerprints, rotation, and the tail query: a reset answer is assumed to show a stretch of the log that ends at its cursor.
- The feed handler's database errors. The catalog's queries: the ids of a snapshot come from a table keyed by id (backend/internal/catalog/catalog.go:2795-2818), so the comparisons of a restored with a scrolled list speak of snapshots that do not repeat an id.
- Filtering the displayed items by later deletions (src/lib/useInfiniteListing.ts): the model filters each response and each cached list as it is applied.
- Drawing feed tokens: a token is assumed never to have been handed out before.
- Null entries in appended videos, the listing's cache of sessions with its eviction, and the automatic restart after an expired token beyond its reset action.
- The virtual grid in a saved entry, storage failures, JSON syntax, and the scroll position beyond its checks.
- The browser's limit on history length, and history entries of other documents.
- HandleUpload: assumes that the server keeps a session's identity and cutting while chunks arrive, as does the protocol of the page; the source does not check it, and a growing number of chunks would keep its loop going.
- The wait for the list of backups after a finished upload (src/admin/BackupPage.tsx:728) is part of the finalizer's step, and an interrupted fetch is taken to fail.
- The real SHA-256: the hash is any function that absorbs bytes one after another; its hexadecimal form is part of it.
- SeeksAreSums: is stated for a duration that stays fixed; BurstsCommitOnce and the clamping of each commit hold for durations that change.
- Unicode case mapping and white space in names and terms: given functions, of which only idempotence and, for upper-casing, making no separators is used.
- Drawing notices, volume, playback, focus and every other effect on the page.
- Other parts of the backend (scanner, drives, jobs) and of the client (forms, tables, player chrome): their logic is branching over fields with no law that spans operations.
