# Verification model of repomon

repomon is a daemon that watches git repositories and the coding agents working in them. This
project models the parts of it that carry state across concurrent actors, or that promise an exact
answer, in Dafny 4.11, and proves what they promise. `dafny verify dfyconfig.toml` checks it.

| part | files | modelled code |
|---|---|---|
| shared byte streams | `ByteStream*.dfy`, `EventOrder.dfy` | `crates/repomon-daemon/src/bytes_stream.rs` |
| RPC client | `Client*.dfy` | `crates/repomon-core/src/client.rs` |
| auto-continue | `AutoContinue*.dfy`, `LimitMenus.dfy` | `crates/repomon-daemon/src/auto_continue.rs`, `crates/repomon-core/src/agent/limit.rs` |
| work sessions | `Session*.dfy` | `crates/repomon-core/src/session.rs` |
| worktree state cache, lane order | `Lane*.dfy` | `crates/repomon-core/src/lane.rs` |
| prices | `Pricing*.dfy` | `crates/repomon-core/src/pricing.rs` |
| alerts | `Notify.dfy`, `NotifyWatch.dfy`, `NotifyRuns.dfy` | `crates/repomon-core/src/notify.rs`, `crates/repomon-daemon/src/notify_watch.rs` |
| schedules | `Schedule*.dfy` | `crates/repomon-core/src/schedule.rs` |
| density rows, time buckets | `Resample.dfy`, `Timeline.dfy` | `crates/repomon-core/src/analytics.rs` |
| frames | `Protocol.dfy` | `crates/repomon-core/src/protocol.rs` |
| repository discovery | `Discover.dfy` | `crates/repomon-core/src/registry.rs` |
| model labels | `CatalogLabels.dfy` | `crates/repomon-daemon/src/command_catalog.rs` |
| shared | `Prelude.dfy`, `Arithmetic.dfy`, `Counting.dfy`, `Sorting.dfy`, `Text.dfy`, `TextForms.dfy` | |

## How it is modelled

**Protocols.** The byte-stream registry, the client and the auto-continue watcher are state
machines: a value `State`, a total function `Next` for one atomic step of one actor, and `After`
for a run. Theorems quantify over every reachable state or every run, so over every interleaving
of the steps. Beside each machine a class has the source's fields and updates them in place; each
method is proved to make exactly its step or steps. `NotifyWatch` has the same shape with one step
per tick.

- *Byte streams.* The actors are connections, closes in flight, one forwarder per generation, and a
  backend that may send, die, or drop a replaced stream. Opening installs a fresh tag in place of
  any other, and closing removes only a matching tag, as the scripted backend of the module's tests
  does. `watch` holds the lock across the open and is one step; `unwatch` and `unwatch_all` are the
  removal under the lock, and separately each close. A forwarder takes an event, numbers it and
  publishes it in three steps. The sequence counter, shared through an `Arc` in the source, lives
  in the forwarder. What was sent into a stream, and which generations an unwatch removed, is kept
  for the proofs only.
- *Client.* Tasks inside `call` interleave at every lock and await. Installing a connection takes
  three steps, its channel, the flag and the epoch, and a reader's end three, the check of the epoch,
  the flag and the pending calls. The record of requests that succeeded, the frames on the wire and
  who drew which id are kept for the proofs.
- *Auto-continue.* A pass begins, looks at its windows one by one, and requests that arm or disarm a
  lane come at any point between. Every pause keeps a history of its texts, menu choices and
  readable captures, which the proofs compare with the schedule; the clock never runs backwards.
- *Worktree cache.* Runs of listings and invalidations; a listing reads the cache, walks without its
  lock while other changes are reported, and then stores.

**Algorithms.** Loops of the source are methods with loops; what they must compute is stated
without them: runs and connected components for sessions, "two others go first" for the capped
refresh, "longest, then newest" for prefix prices, the set of wanted directories for discovery.
Maps that the source walks in an arbitrary order are walked in an arbitrary order here.

**Inputs.** The backend's answers, captures, git walks, clocks, time zones, settings, the file system
and the order of map iteration are parameters or nondeterministic choices. Prices are reals. Integers are
unbounded, except where a width matters: the four-byte frame length, the one-byte miss streak, and the
64-bit numbers in schedules and window names. Instants are nanoseconds, or milliseconds where only
waiting times matter (worktree cache, alerts). In auto-continue a key or a text has the time of its
pass, as in the source's own bookkeeping: the spacings and the six hours are in pass times, and a pass
that waits for captures types a little later.

## Findings

The code was modelled as it is. Where it differs from what its comments lead one to expect, the
difference is a lemma.

- `AutoContinueTheorems.TrackedButHidden`, `HiddenUntilItEnds`: disarming a lane drops its pauses
  from the public view at once but from the schedule only in the next pass
  (`crates/repomon-daemon/src/rpc.rs:4590`). Armed again before that pass, the pause goes on, and
  still sends, without being shown. `ViewExactly` says when a window is shown.
- `ClientRuns.LateCallerDisconnectsAHealthyConnection`: the epoch fences readers but not callers;
  a caller that notices late that its request was dropped marks the new connection disconnected.
  `ClientTheorems.WhoDisconnects` lists who can.
- `ClientRuns.CheckedReaderDisconnectsAHealthyConnection`: a reader's check of the epoch and its
  cleanup are not one step (`crates/repomon-core/src/client.rs:233-235`), and the epoch is raised
  after the flag is set (`:195-198`). A reader that ends as the current one can clear the flag of
  the connection that replaces it. `SupersededReaderIsFenced` shows that no other old reader can.
- `ClientRuns.SupersededReaderAnswers`: the read loop itself knows no epoch
  (`crates/repomon-core/src/client.rs:212-223`), so an old reader still takes ids out of the pending
  map, though only by completing the calls that drew them.
- `ClientRuns.CallLeftWaitingOnADeadConnection`, `CallRegisteredAfterTheCleanup`: the end of a reader
  is meant to fail the calls in flight (`crates/repomon-core/src/client.rs:208-209`), but a call is
  left to its timeout when a caller has replaced the connection before its reader ends, and also when
  it has seen the flag before the cleanup and registers after it. `ClientDrops.LeftWaitingExactly`
  gives the exact condition.
- `ClientRuns.SubscriptionMissedByTheReplay`: a subscription or watch answered on the old connection
  but recorded after the replay has read the record is not given to the new connection.
- `LaneFairness.EventualRefreshFails`: two worktrees whose walks keep failing use up the cap of every
  listing, and a third that was walked after them is never refreshed again. `StarvesExactly` gives
  the exact condition.
- `LaneFairness.FlagIsLost`: a listing walks without the cache's lock and then stores a clean entry,
  so a change reported during the walk is forgotten. `FlagSurvivesExactly` gives the exact condition.
- `LaneOwners.OuterIsFlagged`: of the cached worktrees that contain a changed path the one with the
  longest text of its own is flagged (`crates/repomon-core/src/lane.rs:343`), not, as the comment has
  it, the one whose canonical path is the longest. `InnermostIsFlaggedExactly` gives the exact condition.
- `PricingOverrides.OrderCanMatter`: overrides come from a map in arbitrary order, and a partial
  override of a model without a row of its own inherits from whatever was applied before it.
  `PricingOrders.AllOrdersAgreeExactly` gives the exact condition.
- `PricingLookups.PrefixAgreesWithExact`: with two rows for one model and instant, lookups by prefix
  take the first and lookups by exact id the last.
- `Timeline.DroppedExactly`: a range that ends with a part of a second after whole buckets has
  commits for which there is no bucket; they are not counted.
- `Protocol.TruncationYieldsAPrefix`: the end of the stream counts as clean also inside a frame's
  length, not only between frames.
- `CatalogLabels.ReturnedAsReadExactly`: a display name that names no known model is normalised as
  well, where the comment says it is returned as read
  (`crates/repomon-daemon/src/command_catalog.rs:1191-1194`).
- `NotifyRuns.RepeatedAfterABriefAbsence`: a repeat latch is dropped six hours after its alert as soon
  as its session is absent (`crates/repomon-daemon/src/notify_watch.rs:211-216`), not after six hours
  of absence as the comment has it. `AlertsExactly` gives the exact condition.
- `Schedule.SkippedInTheGap`: a local time that falls into the gap of daylight saving has neither an
  earliest nor a latest instant, so that day is skipped, where the comment expects a real local time
  (`crates/repomon-core/src/schedule.rs:92-98`). `FiresOnADayExactly` gives the exact condition.
- `ScheduleText.PanicsExactly`: "every" followed by a word that ends in a multi-byte character makes
  `split_at` panic (`crates/repomon-core/src/schedule.rs:46`).
- `ScheduleText.AcceptedWithoutPeriod`: a number of hours is multiplied by sixty without a check
  (`crates/repomon-core/src/schedule.rs:53`), so some are accepted as a period of no minutes or less.
  The model wraps as release builds do; with overflow checks the product panics.

## Model

| member | source | states |
|---|---|---|
| ByteStreamTheorems.RegistrySafety | crates/repomon-daemon/src/bytes_stream.rs:92-280 | In every reachable interleaving each entry has a watcher, entries share neither generation nor stream, no close in flight carries an entry's tag, and every live backend stream is its window's entry's or has its close in flight |
| ByteStreamTheorems.CloseNeverStopsAReplacement | crates/repomon-daemon/src/bytes_stream.rs:249-257 | However late it arrives, a close leaves a watched window its entry and whatever live stream it has |
| ByteStreamTheorems.QuiescentRegistryIsTheBackend | crates/repomon-daemon/src/bytes_stream.rs:92-280 | With no close and no end of stream pending, the registry's windows and tags are exactly the backend's live streams |
| ByteStreamTheorems.NoticesAreNumberedAndOrdered | crates/repomon-daemon/src/bytes_stream.rs:138-192 | A generation's notices are numbered 1, 2, 3, … without gap, name its own lane and window, and are bytes and grids in the order in which they were sent, up to some point and with only grid changes left out; once the forwarder is done, of all that was sent |
| ByteStreamTheorems.PublishedBytesAreAPrefix | crates/repomon-daemon/src/bytes_stream.rs:147-192 | The published chunks are a prefix of the chunks sent into the stream, and all of them once the forwarder is done |
| ByteStreamTheorems.ClosedAtMostOnce | crates/repomon-daemon/src/bytes_stream.rs:193-218 | Stream-closed is published once by a generation that finished with its entry not removed by an unwatch, and never otherwise |
| ByteStreamTheorems.CursorCountsTheNotices | crates/repomon-daemon/src/bytes_stream.rs:45-52 | The cursor is the number of notices of the entry's generation, plus at most the one that is numbered but not yet out |
| ByteStreamTheorems.GenerationsAreNeverReused | crates/repomon-daemon/src/bytes_stream.rs:110 | Over any run a generation keeps its window, lane and stream, its counter never goes back, notices stay published, and later generations are new |
| ByteStreamTheorems.RunServes | crates/repomon-daemon/src/bytes_stream.rs:104-108 | A connection stays a watcher of the generation it joined, or that generation's end is published or on its way, until it releases the window |
| ByteStreamTheorems.DeadStreamDrains | crates/repomon-daemon/src/bytes_stream.rs:147-219 | However the actors interleave, the forwarder of a dead stream finishes once it has run a bounded number of times |
| ByteStreamTheorems.WatcherOfADeadStreamIsTold | crates/repomon-daemon/src/bytes_stream.rs:193-218 | A connection watching a dead stream, also one that joined after its death, gets stream-closed for it exactly once unless it releases the window |
| ByteStreamInvariant.RunInv | crates/repomon-daemon/src/bytes_stream.rs:92-280 | Every step of every actor keeps the invariant behind these theorems |
| ByteStreamWatchers.ReleaseReleases | crates/repomon-daemon/src/bytes_stream.rs:58-63 | A release takes exactly that connection off exactly that window; an entry goes exactly when it was the only watcher, and every other entry stays as it was |
| ByteStreamWatchers.ReleaseAllReleases | crates/repomon-daemon/src/bytes_stream.rs:261-280 | The same for one connection and all windows at once |
| ByteStreamWatchers.EntriesComeAndGo | crates/repomon-daemon/src/bytes_stream.rs:92-280 | Whatever the step, an entry goes exactly when its only watcher releases it or its own forwarder finds the stream at an end, and comes exactly when an unwatched window is opened |
| ByteStreamWatchers.WatchesExactly | crates/repomon-daemon/src/bytes_stream.rs:92-280 | In every run a connection watches a window exactly when it has asked for it, has not released it since, and the window's entry has been there ever since |
| ByteStreamWatchers.AllReleasedIsClosed | crates/repomon-daemon/src/bytes_stream.rs:235-280 | In every run a window that everyone who asked for it has released since has no entry, and the stream it still has is about to be closed |
| ByteStreamWatchers.GridIsNoted | crates/repomon-daemon/src/bytes_stream.rs:73-89 | A grid is noted exactly for a watched window, and for one generation only if that is the window's; it is then the window's grid, nothing else changes, and noting it again changes nothing |
| ByteStreamWatchers.GridIsPublishedIfNew | crates/repomon-daemon/src/bytes_stream.rs:167-181 | A forwarder publishes a grid exactly when it is its window's own and the grid is not the window's already, and then it becomes so |
| ByteStreamDaemon.Daemon.Watch | crates/repomon-daemon/src/bytes_stream.rs:92-225 | Joins the window's one stream or opens it under the next generation; the cursor returned is that of the entry, and a failed open changes nothing but the generation counter |
| ByteStreamDaemon.Daemon.Unwatch | crates/repomon-daemon/src/bytes_stream.rs:235-257 | Releases one watcher in place, who then watches the window no more; the last one removes the entry and leaves one close with the entry's own tag in flight |
| ByteStreamDaemon.Daemon.UnwatchAll | crates/repomon-daemon/src/bytes_stream.rs:261-280 | One pass in any map order releases the connection everywhere, so that it watches nothing, and leaves one close per stream that emptied |
| ByteStreamDaemon.Daemon.NoteGrid | crates/repomon-daemon/src/bytes_stream.rs:73-89 | Records a new grid for the matching generation, and says whether it was absent, unchanged or new |
| ByteStreamDaemon.Daemon.Cursor | crates/repomon-daemon/src/bytes_stream.rs:228-230 | A watched window's cursor names its generation and counts the notices published for it, up to one numbered but not yet out |
| ByteStreamDaemon.Daemon.DrainForwarder | crates/repomon-daemon/src/bytes_stream.rs:147-219 | The forwarder loop of an ended stream terminates with everything the backend sent published, its entry gone, and stream-closed out once unless an unwatch came first |
| ClientTheorems.FramesAndIds | crates/repomon-core/src/client.rs:95-169 | No id is issued twice, pending ids are below the counter, and one call puts at most two frames on the wire |
| ClientTheorems.CompletedAtMostOnce | crates/repomon-core/src/client.rs:95-169 | Along any run an id keeps its drawer, an answered id its answer and a finished call its outcome |
| ClientTheorems.AnsweredByItsOwnId | crates/repomon-core/src/client.rs:118-169 | A call that returns a response or an error response returns one delivered to an id it drew itself |
| ClientTheorems.ResponsesFindTheirCaller | crates/repomon-core/src/client.rs:212-221 | A response to a replayed request changes nothing; one that changes anything completes the one waiting call that drew its id |
| ClientTheorems.SupersededReaderIsFenced | crates/repomon-core/src/client.rs:211-236 | Over every run after its connection is superseded, a reader that had not begun to clean up never changes the connected flag; it changes the pending map exactly when it delivers a response whose id is pending, and then only by completing the call that drew the id |
| ClientTheorems.CleanupFailsTheCalls | crates/repomon-core/src/client.rs:234-236 | A cleanup fails every call whose id is pending, waiting or still to send: whatever happens next it can neither be answered nor time out, and once it waits it tries again or fails |
| ClientDrops.LeftWaitingExactly | crates/repomon-core/src/client.rs:208-236 | In every reachable state an unanswered call whose connection's reader has ended, with nothing left to clean up, is still pending exactly when no reader has cleaned up since its id was drawn; then its own reader had been superseded when it ended or had cleaned up before the id was drawn, and if no other reader has cleaned up since, one of these two is also enough |
| ClientDrops.PendingExactly | crates/repomon-core/src/client.rs:103-105 | In every reachable state an id that a call has drawn and still holds is pending exactly when it has not been answered and no reader has cleaned up since it was drawn |
| ClientTheorems.OneReconnectAtATime | crates/repomon-core/src/client.rs:242-246 | At most one task is reconnecting in any reachable state |
| ClientTheorems.ReconnectReplaysTheRecord | crates/repomon-core/src/client.rs:242-280 | Whatever other calls do meanwhile, also to the record, a reconnecting caller whose new connection's writer survives gives that connection the subscription as it stood when read, then each byte watch and each transcript watch in the registries as they stood when copied, exactly once, all before its own request |
| ClientWatches.RegistryIsTheRecord | crates/repomon-core/src/client.rs:126-153 | For any sequence of successful requests, the registry holds a watch, under its own key, exactly when one turned it on and no later one replaced it, stopped its window, or stopped its lane |
| ClientWatches.WatchRegistriesAreTheRecord | crates/repomon-core/src/client.rs:118-155 | In every reachable state both registries and the subscription are the record of the requests that succeeded |
| ClientWatches.KeysAreWatches | crates/repomon-core/src/client.rs:283-292 | Two watches share a key exactly when they name the same window, or no window and the same lane, -1 where none is named, or one names a window that is called like the other's lane |
| ClientRecord.RecordIsWhatReturned | crates/repomon-core/src/client.rs:118-155 | In every reachable state each request is on record exactly as often as there are calls with that request that returned an answer without error |
| ClientRecord.FailureLeavesNoTrace | crates/repomon-core/src/client.rs:118-165 | A step after which a call is refused, timed out, disconnected or without a connection leaves everything remembered as it was |
| ClientRecord.OneConnectionForOneLost | crates/repomon-core/src/client.rs:242-252 | In every run at most one connection is installed for each time that the connected flag was cleared |
| ClientCalls.TriesExactly | crates/repomon-core/src/client.rs:95-169 | In every reachable state a call that failed as disconnected drew two ids for itself, one that was answered or timed out one or two, and one that could not connect at most one |
| ClientCalls.FramesCarryTheRequest | crates/repomon-core/src/client.rs:107-111 | In every reachable state a frame that a call sent for itself carries that call's request |
| ClientCalls.NothingAfterTheWriterDies | crates/repomon-core/src/client.rs:110-116 | Over every run, nothing is put on a connection whose writer has died, neither a call's own frame nor a replayed one |
| ClientCalls.NothingIsSentWhileDown | crates/repomon-core/src/client.rs:98-101 | As long as nobody has put up a new connection, a call that has yet to look at the flag draws no id, and ends only by finding nobody to connect to |
| ClientRuns.LateCallerDisconnectsAHealthyConnection | crates/repomon-core/src/client.rs:156-160 | A reachable state in which a late caller has marked a healthy second connection disconnected |
| ClientRuns.CallLeftWaitingOnADeadConnection | crates/repomon-core/src/client.rs:231-236 | A reachable state in which a call waits though reader and writer of its only connection have ended, the reader after being superseded |
| ClientRuns.CallRegisteredAfterTheCleanup | crates/repomon-core/src/client.rs:98-105 | A reachable state in which a call waits on a connection that was never replaced and whose reader has ended and cleaned up |
| ClientRuns.FailedByTheNextReader | crates/repomon-core/src/client.rs:233-236 | A reachable state in which a call on a superseded connection has been failed by the cleanup of the next connection's reader |
| ClientRuns.SupersededReaderAnswers | crates/repomon-core/src/client.rs:219-223 | A reachable state in which the reader of a superseded connection takes an id out of the pending map |
| ClientRuns.CheckedReaderDisconnectsAHealthyConnection | crates/repomon-core/src/client.rs:233-236 | A reachable state in which a reader that found its connection current has marked the next, healthy one disconnected |
| ClientRuns.SubscriptionMissedByTheReplay | crates/repomon-core/src/client.rs:123-125 | A reachable state, connected and with a subscription on record, in which nothing was ever sent on the current connection |
| ClientInvariant.RunInv | crates/repomon-core/src/client.rs:29-293 | Every step of every task, reader and writer keeps the client's invariant |
| ClientInner.Inner.Reconnect | crates/repomon-core/src/client.rs:190-252 | Under the lock, a connected client is left alone; otherwise the call fails, or puts a new channel in place, sets the flag and raises the epoch, as three steps of the machine |
| ClientInner.Inner.Register | crates/repomon-core/src/client.rs:102-104 | Draws the next id and puts the call under it in the pending map |
| ClientInner.Inner.Enqueue | crates/repomon-core/src/client.rs:110-116 | Puts the call's frame on the connection whose sender it cloned, or withdraws its id and marks the client disconnected when that writer is gone |
| ClientInner.Inner.TimeOut | crates/repomon-core/src/client.rs:161-165 | A call that waited too long withdraws its id and fails |
| ClientInner.Inner.Deliver | crates/repomon-core/src/client.rs:212-221 | A response takes its id out of the pending map and completes that call; one nobody waits for is dropped |
| ClientInner.Inner.ReaderEnds | crates/repomon-core/src/client.rs:231-236 | A reader that finds its epoch current clears the flag and drops every pending call, as steps of the machine; any other does nothing |
| ClientInner.Inner.Record | crates/repomon-core/src/client.rs:123-154 | Remembers a successful subscription or watch request in place |
| ClientInner.Inner.Replay | crates/repomon-core/src/client.rs:254-279 | The replay loops run from the installed connection to the released lock as steps of the machine, whatever order the maps yield |
| AutoContinueTheorems.TextsComeInTime | crates/repomon-daemon/src/auto_continue.rs:79-145 | Within a pause no text comes before reset + 60 s, or detection + 5 min without a reset, nor after detection + 6 h, nor within 5 (20) minutes of the one before |
| AutoContinueTheorems.TextsAreFew | crates/repomon-daemon/src/auto_continue.rs:284-297 | A pause sends at most 73 texts when its reset is known and at most 18 when it is not |
| AutoContinueTheorems.NothingAfterGivingUp | crates/repomon-daemon/src/auto_continue.rs:110-117 | After giving up a pause sends nothing more |
| AutoContinueTheorems.MenuIsChosenFirst | crates/repomon-daemon/src/auto_continue.rs:121-128 | The wait option is chosen at most once in a pause, and text reaches a showing menu only 90 s after the choice |
| AutoContinueTheorems.EveryTextBelongsToAPause | crates/repomon-daemon/src/auto_continue.rs:284-288 | Every text typed in any run is on the record of a pause of its window |
| AutoContinueTheorems.ResumedAfterTwoMisses | crates/repomon-daemon/src/auto_continue.rs:136-144 | A pause that ended as resumed had just been missed in two readable captures in a row |
| AutoContinueArming.ArmedExactly | crates/repomon-daemon/src/auto_continue.rs:201-207 | In every run a pass treats a window as armed exactly when the step that began the pass had the setting on and no request before it had disarmed the window's lane without a later one arming it |
| AutoContinueLooks.DisarmedPassDoesNothing | crates/repomon-daemon/src/auto_continue.rs:94-101 | In a pass that treats a window as disarmed a look types no text and no keys and tracks nothing; it only ends the pause the window has, as disarmed |
| AutoContinueLooks.ArmedPassDecides | crates/repomon-daemon/src/auto_continue.rs:94-145 | In every other pass a look is decided as if there were no arming |
| AutoContinueLooks.TracksExactly | crates/repomon-daemon/src/auto_continue.rs:103-109 | An untracked window becomes tracked, announced and shown in the view exactly when it shows the limit in a pass that treats it as armed; otherwise the look changes nothing |
| AutoContinueLooks.SendsExactlyWhenDue | crates/repomon-daemon/src/auto_continue.rs:103-135 | A look at a tracked window that shows the limit types one text and nothing else exactly when it is armed by the requests and settings of the run, not given up, not six hours old, past the menu and its 90 s, and past the due time or the cadence |
| AutoContinueLooks.EndsExactly | crates/repomon-daemon/src/auto_continue.rs:94-144 | A tracked pause ends exactly when the requests and settings of the run leave its window disarmed, or it misses the limit in a second readable capture in a row, and is then announced as running and on record as disarmed or as resumed |
| AutoContinueLooks.GivesUpExactly | crates/repomon-daemon/src/auto_continue.rs:110-117 | A pause is given up, and announced as waiting, exactly when a look in an armed pass finds the limit more than six hours after the detection |
| AutoContinueLooks.ChoosesExactly | crates/repomon-daemon/src/auto_continue.rs:118-128 | The menu's keys, all of them and nothing else, are typed exactly on its first showing in an armed pause not given up, within six hours and 90 s clear of the last text |
| AutoContinueTheorems.ViewIsTracked | crates/repomon-daemon/src/auto_continue.rs:250-257 | In every run a window in the public view is tracked and not given up, with its pause's reset time and instant of detection |
| AutoContinueTheorems.ViewExactly | crates/repomon-daemon/src/auto_continue.rs:178-321 | In every run a window is in the public view exactly when its pause is tracked, not given up, and its lane has not been disarmed since the pause was detected |
| AutoContinueTheorems.ViewAgreesUntilAPauseIsHidden | crates/repomon-daemon/src/auto_continue.rs:178-321 | From agreement between view and schedule, a step keeps it exactly when it does not disarm a lane that shows a pause |
| AutoContinueTheorems.WatcherKeepsTheView | crates/repomon-daemon/src/auto_continue.rs:178-321 | Over runs of the watcher alone a window is in the view exactly when it is tracked and not given up |
| AutoContinueTheorems.DisarmAndRearmHides | crates/repomon-daemon/src/rpc.rs:4580-4600 | Disarming and arming a lane again changes nothing but the view, which loses the lane's pauses |
| AutoContinueTheorems.TrackedButHidden | crates/repomon-daemon/src/rpc.rs:4580-4600 | Four steps lead to a tracked pause that is not in the public view |
| LimitMenus.ParseMenu | crates/repomon-core/src/agent/limit.rs:81-108 | The menu is the whole block of option lines around the first that offers to wait, with the first cursor in it; there is none exactly when no line offers to wait |
| LimitMenus.KeysConfirmTheWaitOption | crates/repomon-core/src/agent/limit.rs:111-126 | In a menu whose arrows move the cursor by one row and whose numbers put it on the first row with that number, which is assumed of the agent's program, the keys end with the one Enter on the wait option exactly when the cursor was read where it is, or, if none was read, no earlier row has the option's number, or, without a number, the cursor is on it already |
| AutoContinueInvariant.RunInv | crates/repomon-daemon/src/auto_continue.rs:160-321 | Every pass, look and request keeps schedule, view and history in step |
| AutoContinueWatcher.Watcher.Apply | crates/repomon-daemon/src/auto_continue.rs:226-321 | Performs a decided action on both maps in place and says what was typed and announced |
| AutoContinueWatcher.Watcher.Tick | crates/repomon-daemon/src/auto_continue.rs:160-221 | One tick is the machine's pass: windows that are gone are forgotten, and each managed one is looked at in the order of the names, failed captures skipped |
| AutoContinueWatcher.ManagedExactly | crates/repomon-daemon/src/auto_continue.rs:149-157 | Exactly the windows of agents' slots are scanned, in the order of their names and each once |
| AutoContinueWatcher.PassForgetsTheGone | crates/repomon-daemon/src/auto_continue.rs:170-200 | A pass forgets exactly the windows that are not listed and looks at the agents' ones of the rest; when they cannot be listed nothing happens |
| AutoContinueWatcher.NamesExactly | crates/repomon-core/src/agent/tmux.rs:289-306 | A window belongs to a lane exactly when its name is lane-, the lane's number in 63 bits and, if anything follows, a dash and a slot number from two on in 64 bits; zeros and a plus may come before a number |
| AutoContinueWatcher.SlotNamesBelongToTheirLane | crates/repomon-core/src/agent/tmux.rs:274-306 | The window name made for a lane's slot is read back as that lane and no other |
| SessionDetect.Detect | crates/repomon-core/src/session.rs:29-95 | The sessions are exactly the connected components, ten minutes long or more, of the per-repository runs, strictly newest first, each with the number of commits in its span and the distinct repositories of those commits in the order of their first ones |
| SessionTheorems.OrderDoesNotMatter | crates/repomon-core/src/session.rs:29-95 | The same commits in any order give sessions with the same spans, kinds, counts and sets of repositories |
| SessionTheorems.SessionsStartAndEndWithCommits | crates/repomon-core/src/session.rs:97-119 | A session starts and ends with a commit, lasts ten minutes and has at least two commits |
| SessionTheorems.ParallelExactly | crates/repomon-core/src/session.rs:97-119 | A session is parallel exactly when it spans commits of two repositories, and focused otherwise |
| Sessions.WholeMinutesDecide | crates/repomon-core/src/session.rs:44-80 | Comparing whole minutes splits exactly at gaps of 31 minutes or more, and drops exactly what is shorter than ten |
| Sessions.ComponentsMeetOnlyIfEqual | crates/repomon-core/src/session.rs:67-95 | Two components that share an instant are one; sessions are disjoint |
| SessionRuns.SplitRuns | crates/repomon-core/src/session.rs:36-63 | One pass over sorted times cuts them exactly at the gaps whose whole minutes exceed 30, with each piece's ends and number |
| SessionRuns.Runs | crates/repomon-core/src/session.rs:30-64 | Whatever order the map yields, each run of each repository is listed once with its number of commits |
| SessionDetect.Merge | crates/repomon-core/src/session.rs:66-92 | One pass over the runs by start emits exactly the long enough components |
| LaneWalks.ListingWalksExactly | crates/repomon-core/src/lane.rs:216-252 | A listing walks exactly what was never walked, what is flagged and was last walked 2.5 s ago or more, and of what is flagged later than that or was last walked three minutes ago those that do not have two others walked longer ago, or as long ago and listed before |
| LaneFairness.WalkedWithinHalf | crates/repomon-core/src/lane.rs:213-280 | Of n worktrees an eligible one is walked within ⌈n/2⌉ listings, whatever is invalidated in between, when those that go before it can be read |
| LaneFairness.WalkedDespiteOneFailure | crates/repomon-core/src/lane.rs:213-280 | It is walked within n listings when each finds at most one worktree that goes before it and cannot be read |
| LaneFairness.StarvesExactly | crates/repomon-core/src/lane.rs:213-277 | When always the same worktrees cannot be read, one past its time is never walked if two unreadable clean ones were walked before it, or listed before it and walked at the same time, and is walked within n listings if not |
| LaneFairness.EventualRefreshFails | crates/repomon-core/src/lane.rs:261-277 | A run of any length in which a readable worktree past its time is never walked |
| LaneFairness.ListedAt | crates/repomon-core/src/lane.rs:225-277 | A listing gives exactly the worktrees it walked and could read a new clean entry; all others keep theirs, flagged if a change was reported meanwhile |
| LaneFairness.FlagSurvivesExactly | crates/repomon-core/src/lane.rs:225-277 | After a listing a worktree is flagged exactly when it was before or became so during the walks, and was not both walked and read |
| LaneFairness.FlagIsLost | crates/repomon-core/src/lane.rs:264-277 | A listing after which a worktree that changed while it was walked is taken for clean |
| LaneFairness.FlaggedIsWalked | crates/repomon-core/src/lane.rs:225-229 | A worktree that is flagged is walked at the latest by the first listing after the debounce, whatever else happens |
| LaneFairness.InvalidationFlags | crates/repomon-core/src/lane.rs:332-348 | Between canonical paths a change flags the innermost cached worktree that contains it and leaves every other entry as it was |
| LaneFairness.OwnerIsUnique | crates/repomon-core/src/lane.rs:336-344 | At most one cached worktree owns a changed path |
| LaneList.Lanes.List | crates/repomon-core/src/lane.rs:208-281 | Every position of a listing shows its walk's result if it was walked and its state in the cache as first read if not, never nothing; the cache becomes what the walks found on top of the changes reported meanwhile |
| LaneList.Lanes.InvalidateState | crates/repomon-core/src/lane.rs:332-348 | Flags one of the cached worktrees whose canonical forms contain the path's, one with the longest text of its own, and nothing if there is none |
| LaneOwners.InnermostIsFlaggedExactly | crates/repomon-core/src/lane.rs:330-347 | Every change flags a worktree whose canonical path is the longest prefix exactly when, of two cached worktrees one inside the other, the inner one is cached by some path with a longer text than the outer's |
| LaneOwners.OuterIsFlagged | crates/repomon-core/src/lane.rs:330-347 | A cache in which a change inside the inner of two worktrees flags the outer one, which is cached by a longer name |
| LaneOwners.CanonicalFlags | crates/repomon-core/src/lane.rs:332-348 | When the cached paths are canonical, exactly the innermost worktree that contains the path is flagged |
| LaneOrder.LanesStandByRepository | crates/repomon-core/src/lane.rs:531-549 | The sorted lanes are the same lanes with each repository together, its main worktree first and then the most recently active, livelier repositories before others, and of equally lively ones the smaller number first |
| LaneOrder.SortLanes | crates/repomon-core/src/lane.rs:531-549 | One pass finds each repository's latest activity, by which the lanes are then sorted stably |
| PricingLookups.PrefixIsLongestThenNewest | crates/repomon-core/src/pricing.rs:250-272 | The search by prefix finds the longest effective prefix and of it a newest row, and nothing exactly when no effective row is a prefix |
| PricingLookups.PrefixIsLongestFirst | crates/repomon-core/src/pricing.rs:250-272 | Of rows of the same model and instant the first is found |
| PricingLookups.PrefixAgreesWithExact | crates/repomon-core/src/pricing.rs:242-272 | Searches by prefix and by exact id agree for every model and time exactly when, of the rows of one model for one instant, the first and the last in the table are equal |
| PricingLookups.DistinctRowsDoNotClash | crates/repomon-core/src/pricing.rs:242-272 | With unique pairs of model and date they always agree |
| PricingLookups.PricedExactly | crates/repomon-core/src/pricing.rs:220-240 | A model is priced exactly when an effective row is a prefix of it or of its alias, and an exact row always wins, and the longest row for an alias wins over the model's own family |
| PricingFinds.FoundExactly | crates/repomon-core/src/pricing.rs:220-272 | A lookup finds, by its place in the table, the last of the newest begun rows of exactly this model, or else of the name it stands for, or else the first of the newest begun rows of that name's longest family, or else of its own longest family, and nothing exactly when there is none of these |
| PricingFinds.AliasStandsFor | crates/repomon-core/src/pricing.rs:425-450 | Exactly three names stand for another one |
| PricingFinds.UnpricedExactly | crates/repomon-core/src/pricing.rs:298-305 | A model has no cost exactly when no row is found and its name does not end in -free, and costs nothing when none is found and it does |
| PricingLookups.LaterRowsDoNotMatter | crates/repomon-core/src/pricing.rs:220-312 | Tables with the same rows up to an instant give the same lookups and costs up to it |
| PricingLookups.LaterInsertDoesNotMatter | crates/repomon-core/src/pricing.rs:157-160 | Inserting a row dated after t changes no lookup and no cost at or before t |
| PricingLookups.OnlyOwnOrderMatters | crates/repomon-core/src/pricing.rs:220-272 | Lookups depend only on each model's own rows in their order |
| PricingOverrides.LookupAfter | crates/repomon-core/src/pricing.rs:172-272 | After an override every lookup, for any model at any time, finds the new row exactly where that comes before what was found by id, by alias or by prefix, and otherwise what it found before |
| PricingOverrides.NothingChangesBefore | crates/repomon-core/src/pricing.rs:174-218 | No override changes any model's price before the override's own date |
| PricingOverrides.OverrideWins | crates/repomon-core/src/pricing.rs:213-216 | From its date an override prices its model until a newer row of that model begins |
| PricingOverrides.UndatedOverride | crates/repomon-core/src/pricing.rs:174-218 | An undated override of a model with a row leaves all prices before that row's date and prices the model from it on, each rate its own or inherited |
| PricingFinds.OverriddenCosts | crates/repomon-core/src/pricing.rs:172-312 | From an override's date, its own or that of the model's newest row or none, until a newer row, a million tokens of each kind cost the override's rate for it, or else that of the model's newest row at any time, or else that of the row found when it was applied, or else nothing |
| PricingOverrides.OrderDoesNotMatter | crates/repomon-core/src/pricing.rs:172-218 | Overrides of distinct models, each complete or with a row to inherit from, give the same lookups in every order and at every time of applying |
| PricingOverrides.AppliedOverrideIsInherited | crates/repomon-core/src/pricing.rs:183-212 | A model without a row inherits each rate it leaves out from an override applied before exactly where a lookup for the model, also by its alias, finds that one, and otherwise as if it had not been applied |
| PricingOrders.AllOrdersAgreeExactly | crates/repomon-core/src/pricing.rs:172-218 | Any number of overrides of distinct models, applied at one time, give the same prices in every order, for every model and instant, exactly when each has a row of its own or inherits the same rates from the table with and without the row of each other one |
| PricingOverrides.TwoOrdersAgreeExactly | crates/repomon-core/src/pricing.rs:172-218 | The same for two overrides, each applied at its own time in each order |
| PricingOverrides.OrderCanMatter | crates/repomon-core/src/pricing.rs:172-218 | Two overrides that price a model differently in the two orders |
| PricingTable.PriceTable.SearchPrefix | crates/repomon-core/src/pricing.rs:252-272 | The one-pass loop with a best row computes the search by prefix |
| PricingTable.PriceTable.ApplyOverrides | crates/repomon-core/src/pricing.rs:174-218 | The loop applies the overrides in turn to the rows in place, with the clock read anew for each |
| PricingTable.PriceTable.CountSources | crates/repomon-core/src/pricing.rs:275-296 | Each of the three counts is the number of models whose newest row has that source |
| PricingTable.EveryModelCountsOnce | crates/repomon-core/src/pricing.rs:275-296 | The three counts add up to the number of distinct models |
| PricingTable.NewestAtTheEnd | crates/repomon-core/src/pricing.rs:275-287 | The row a model is counted under is the one found by its exact id once all rows are effective |
| PricingTable.CostsAdd | crates/repomon-core/src/pricing.rs:299-312 | The cost of two batches of tokens is the sum of their costs |
| PricingTable.MillionTokensCostTheRate | crates/repomon-core/src/pricing.rs:298-312 | A million tokens of a kind cost that kind's rate; without a price a model costs nothing in the free tier and is unknown otherwise |
| Notify.SessionStatuses | crates/repomon-core/src/notify.rs:85-119 | Each key of a counted session comes once, stale exactly when one of its sessions is, and rate-limited if one is, else waiting if one is, else running, else idle, and ended if all are |
| Notify.StatusesByName | crates/repomon-core/src/notify.rs:85-119 | The most urgent status by the ranking is, in every list of keys and states, that one of the five by name |
| Notify.SessionOrderDoesNotMatter | crates/repomon-core/src/notify.rs:85-110 | Sessions in another order give the same pairs |
| Notify.Diff | crates/repomon-core/src/notify.rs:123-158 | Two snapshots give at most one alert per key, exactly those of the per-key rule, whatever order the maps yield |
| NotifyWatch.StallsAreApart | crates/repomon-core/src/notify.rs:139-145 | Between two stall alerts of a key there is a snapshot without it or without the stall |
| NotifyRuns.AlertsAreEdges | crates/repomon-daemon/src/notify_watch.rs:94-123 | In every run the alerts given are those of ticks that compare two consecutive snapshots read with notifications on and under one setting, each an edge between them, with that tick's time and the session's last message |
| NotifyWatch.GivenExactly | crates/repomon-daemon/src/notify_watch.rs:118-166 | An edge is alerted exactly when its own debounce, latch and setting allow it, independent of the order of the edges |
| NotifyRuns.AlertsExactly | crates/repomon-daemon/src/notify_watch.rs:94-217 | In every run a tick gives an alert exactly when it is an edge of an enabled kind and every earlier one of that session and kind lies 30 s back, or before notifications were off, and was about an older message or idleness or had none, or has been forgotten: by switching off, or by a tick six hours or more after it that finds the session absent |
| NotifyRuns.AlertsDoNotRepeat | crates/repomon-daemon/src/notify_watch.rs:117-217 | While notifications stay on an alert comes at most once in 30 s, and within six hours again only for a session with a newer message |
| NotifyRuns.PresentNeverRepeats | crates/repomon-daemon/src/notify_watch.rs:127-217 | A session in every snapshot in between is not alerted about the same message again, however long it waits |
| NotifyRuns.RepeatedAfterABriefAbsence | crates/repomon-daemon/src/notify_watch.rs:211-216 | A run in which a session absent for one tick, six hours after its alert, is alerted about the same message again |
| NotifyWatch.Watcher.TickOnce | crates/repomon-daemon/src/notify_watch.rs:90-217 | One tick diffs the snapshots and gives the alerts in place as the machine does |
| Schedule.NextAt | crates/repomon-core/src/schedule.rs:78-108 | In any time zone the search returns the first instant after its argument at which the clock first shows the target time on a day that will do, and falls through to a day later exactly when all fourteen days are ruled out |
| Schedule.FiresExactly | crates/repomon-core/src/schedule.rs:61-76 | A schedule fires at an instant exactly when the clock then shows its hour and minute, and no more, for the first time, on any day, or on none or only those whose number since 1 January 1970 leaves 2 or 3 divided by seven, Saturdays and Sundays |
| Schedule.FallsThroughExactly | crates/repomon-core/src/schedule.rs:78-108 | All fourteen days are ruled out exactly when, from the day shown or past its hour and minute the next, on each the schedule does not take it or the clock does not first show the time on it later on |
| Schedule.FridayEvening | crates/repomon-core/src/schedule.rs:65-72 | From the evening of Friday, 2 January 1970, weekdays at nine comes on Monday at nine and weekends at nine on Saturday at nine |
| Schedule.NeverFallsThrough | crates/repomon-core/src/schedule.rs:104-107 | The fallback is never reached where the clock is set back by less than a day and skips the target time at most once a week |
| Schedule.MovedClocksGoOn | crates/repomon-core/src/schedule.rs:94-97 | A clock that is moved any number of times, forwards and back, by less than a day in all and with more than a week in between, is such a zone |
| Schedule.FiresOnADayExactly | crates/repomon-core/src/schedule.rs:91-103 | A schedule fires on a day exactly when it takes the day, by the number of the day, and the clock shows the target time on it |
| Schedule.SkippedInTheGap | crates/repomon-core/src/schedule.rs:91-103 | A daily schedule that skips the day on which its time falls into the gap of daylight saving |
| Schedule.Next | crates/repomon-core/src/schedule.rs:61-75 | In any zone the next firing is the period added, or the first qualifying instant, or a day later where the search falls through |
| Schedule.FiringsAreDue | crates/repomon-core/src/schedule.rs:61-75 | Iterating gives strictly increasing instants at which the schedule is due, across changes of the clock |
| Schedule.EveryDueInstantIsMet | crates/repomon-core/src/schedule.rs:61-75 | Iterating from a start meets every due instant after it exactly once |
| ScheduleText.SpecRoundTrip | crates/repomon-core/src/schedule.rs:18-59 | The documented form of every acceptable schedule is read back as that schedule, and so is the form in hours of a period of whole hours |
| ScheduleGrammar.AcceptedExactly | crates/repomon-core/src/schedule.rs:31-59 | A text is accepted as a schedule exactly when it is two words with white space around them, the first its kind in any case, and the second an hour and a minute in range with a colon between, or a number with m, or with h, whose minutes are the 64-bit wrap of sixty times the number |
| TextForms.NumberIsReadExactly | crates/repomon-core/src/schedule.rs:38-50 | A number is read exactly from its decimal digits, after any zeros and perhaps a plus |
| TextForms.LaidIsRead | crates/repomon-core/src/schedule.rs:31-35 | Words laid out with any white space between and around them are what is read |
| TextForms.LayoutOf | crates/repomon-core/src/schedule.rs:31-35 | Every text is the words that are read, laid out with white space |
| ScheduleText.HoursAreReadExactly | crates/repomon-core/src/schedule.rs:45-55 | The documented form of n hours is read as 60 n minutes exactly when that fits 63 bits, and as what it wraps to otherwise |
| ScheduleText.PanicsExactly | crates/repomon-core/src/schedule.rs:31-47 | Reading panics exactly for two words of which the first is "every" in any case and the second ends in a character of several bytes |
| ScheduleText.AcceptedIsValidExactly | crates/repomon-core/src/schedule.rs:31-59 | What is accepted has a time of day in range or a positive period, except exactly for numbers of hours in thirty ranges, where the minutes wrap to none or less |
| ScheduleText.AcceptedWithoutPeriod | crates/repomon-core/src/schedule.rs:45-55 | A number of hours that is accepted as a period of no minutes |
| Resample.ShrinkingPartitions | crates/repomon-core/src/analytics.rs:37-42 | When shrinking, every source cell belongs to exactly one span |
| Resample.StretchingIsSingle | crates/repomon-core/src/analytics.rs:37-42 | When stretching, every span is one source cell |
| Resample.StretchingHits | crates/repomon-core/src/analytics.rs:37-42 | When stretching, every source cell is shown |
| Resample.PeakIsKept | crates/repomon-core/src/analytics.rs:30-44 | The overall maximum is the same at every width |
| Resample.CellsArePeaks | crates/repomon-core/src/analytics.rs:30-44 | Drawn at the same width, each cell of the result is the greatest of the source cells it overlaps from their start or up to their end, and zero for an empty row |
| Resample.SameWidthIsIdentity | crates/repomon-core/src/analytics.rs:30-44 | At its own width a row is unchanged |
| Timeline.CountCommits | crates/repomon-core/src/analytics.rs:54-70 | Each cell holds the number of its repository's commits in its bucket, and exactly the repositories with a counted commit have a row |
| Timeline.DroppedExactly | crates/repomon-core/src/analytics.rs:61-66 | A commit in range has no bucket exactly when the range's whole seconds fill whole buckets and the commit lies in the part of a second after them |
| Timeline.BucketsAreSpans | crates/repomon-core/src/analytics.rs:54-70 | A commit is counted in a bucket exactly when it lies in the half-open range and within that bucket's seconds, at least one, from the start of the range |
| Timeline.BucketsCoverWholeSeconds | crates/repomon-core/src/analytics.rs:50-53 | There is one bucket, and one more for each that a whole second of the range is in |
| Timeline.WholeSecondsDropNothing | crates/repomon-core/src/analytics.rs:54-66 | In whole seconds every commit in range has a bucket |
| Timeline.NothingIsLostExactly | crates/repomon-core/src/analytics.rs:60-70 | A repository's cells add up to its commits in range exactly when none of them is dropped |
| Timeline.LevelIsBinaryDigits | crates/repomon-core/src/analytics.rs:14-23 | A density level is the number of binary digits of the count, capped at five |
| Protocol.RoundTripExactly | crates/repomon-core/src/protocol.rs:119-156 | A frame is read back, leaving what follows, exactly when its payload is within the limit, also for payloads whose length does not fit four bytes |
| Protocol.DecodesExactly | crates/repomon-core/src/protocol.rs:139-156 | For every byte string a frame is read exactly from the bytes that writing its payload gives and up to 64 MiB, the end is reported exactly below four bytes, and the errors exactly by the length in the first four bytes, the lowest first |
| Protocol.FrameIs | crates/repomon-core/src/protocol.rs:119-125 | A frame is the four bytes of the length, the lowest first, and the payload |
| Protocol.StreamRoundTrip | crates/repomon-core/src/protocol.rs:119-156 | Any list of payloads within the limit is read back as that list and then none |
| Protocol.TruncationYieldsAPrefix | crates/repomon-core/src/protocol.rs:138-156 | A stream that breaks off yields exactly its complete frames, then none if it broke off before a payload and an error if inside one |
| Protocol.Pipe.WriteFrame | crates/repomon-core/src/protocol.rs:119-125 | Appends the encoded frame to the stream |
| Protocol.Pipe.ReadFrame | crates/repomon-core/src/protocol.rs:139-156 | Consumes one frame from the stream, filling a buffer byte by byte, with the outcome the encoding determines; a refused length leaves what follows it, every other failure nothing |
| Discover.DiscoverWalk | crates/repomon-core/src/registry.rs:227-258 | The walk terminates and returns, strictly sorted, exactly the canonical forms of the directories within the depth that have .git, below none that has, and are entered through no skipped name |
| Discover.WantedExactly | crates/repomon-core/src/registry.rs:227-254 | A directory is one to be found exactly when it has .git, lies within the depth, and every step down to it is a readable directory without .git that lists the next, a directory by none of the six skipped names |
| Discover.PathsCompare | crates/repomon-core/src/registry.rs:255-256 | Of two paths that goes first whose first different component does, or which the other goes on from |
| CatalogLabels.LabelRoundTripExactly | crates/repomon-daemon/src/command_catalog.rs:1143-1154 | For an ASCII id, the id read back from its label is that id exactly when it is empty or its parts are non-empty, lower case, without white space and not edged by parentheses |
| CatalogLabels.LabelShows | crates/repomon-daemon/src/command_catalog.rs:1143-1154 | The label of an ASCII id has a blank for each dash and a capital for each letter that starts a part, and is the id otherwise |
| CatalogLabels.NameIsReadExactly | crates/repomon-daemon/src/command_catalog.rs:1205-1211 | Every ASCII name is words laid out with white space, and the id read from it is what they have between outer parentheses, in lower case, joined by dashes, without those that have nothing |
| CatalogLabels.ReadingIsIdempotent | crates/repomon-daemon/src/command_catalog.rs:1205-1211 | Reading an ASCII display name twice is reading it once |
| CatalogLabels.ReturnedAsReadExactly | crates/repomon-daemon/src/command_catalog.rs:1191-1211 | An ASCII name is returned as read exactly when it is empty or a single plain word |

## Left out

- CatalogLabels.LabelRoundTripExactly: ASCII ids only, because upper and lower case of other letters are Unicode tables.
- CatalogLabels.LabelShows: ASCII ids only, for the same reason.
- CatalogLabels.ReadingIsIdempotent: ASCII names only, for the same reason.
- CatalogLabels.ReturnedAsReadExactly: ASCII names only, for the same reason.
- CatalogLabels.NameIsReadExactly: ASCII names only, for the same reason.
- NotifyWatch.Watcher.TickOnce: without the triage timers, the rule-based approval and the delivery of an alert, which come after the decision to give it.
- LaneList.Lanes.List: other invalidations interleave with the walks, but two listings do not.
- Sockets, named pipes, tmux, ConPTY, git, SQLite, file writes, service managers and OS notifications: foreign calls whose results are inputs.
- The recognition of limits in a pane and of option lines, attention classification, message wording, JSON, TOML and base64 encodings.
- Wrap-around of the 64-bit counters of generations, tags, ids and epochs.
- The bounds of the calendar and of durations: dates and periods beyond them make the date library panic.
- Jaccard correlations and their rounding, and the assembly of timeline rows: no further property.
- All of `apps/desktop`, the terminal user interface, the store, publish and subscribe, and small single-branch helpers.
