# A verified model of the log viewer

This project models the stateful parts of a log-viewing system (a NestJS gateway, Go log-streamers, a React client and
an authentication service) in Dafny 4.11 and proves what they promise. `dafny verify dfyconfig.toml` checks everything.
Automatic induction is off for every lemma, so that each inductive proof is written out.

**The live-log subscription protocol.** `ReferenceCounts.dfy` and `SubscriptionCounts.dfy` are the gateway's reference
counts. `StreamProtocol.dfy` is the whole protocol as a transition system: the connection objects, sockets and reconnect
timers of the gateway, also those that no table refers to any more, the messages in flight on every socket, and the
subscription sets of every streamer. Its steps are the events: subscribe and return calls, DNS lookups and their
answers, sockets that open, close or fail, timers that fire, messages that are delivered, shutdown.
`StreamWiring.dfy`, `StreamSync.dfy`, `StreamTraffic.dfy`, `StreamLifecycle.dfy`, `Reconnects.dfy` and
`StaleConnections.dfy` prove what every step keeps and what follows for whole runs; the main result is that replaying
the messages in flight onto the streamer's sets always gives the active keys.
`LogStreamerProxy.dfy` has the gateway's service as a class whose handlers are proved to be these steps, and
`StreamerSubscriptions.dfy` has the streamer's subscription manager, whose handling of messages is proved to be the
protocol's, under any interleaving of watchers, stops and messages.

**Log search.** `LogLines.dfy` says what a log file contains: parsed lines, grouped into entries, filtered;
`LogEntries.dfy` and `SearchFilters.dfy` say it a second time, without its functions, and prove that both agree.
`LogSearch.dfy` (one file), `LogReader.dfy` (files) and `LogStats.dfy` (counters) prove the streaming loops against
that; `LogFiles.dfy` has the list of files with its compaction in place. `LogHistory.dfy` merges the answers of all
nodes and `Paging.dfy` reads page after page; the chain of theorems goes from lines of files to the pages shown.
`ReadErrors.dfy` and `LostMatches.dfy` say which matches never get onto a page.
`Timestamps.dfy` and `StableSort.dfy` are the order of timestamps and the stable sort they share, `Sequences.dfy` a few
facts about sequences.

**The client.** `LogWindow.dfy` is the live window (online, trimmed, sorted when needed) against "sort everything and
keep the last lines". `Highlight.dfy` and `FindCursor.dfy` are the marking of matches in HTML and the cursor over them;
`Entities.dfy` is about messages whose HTML differs from the message.

**Codecs and accounts.** `Calendar.dfy`, `Decimals.dfy` and `KstDatetime.dfy` are the date arithmetic and the datetime
texts of the database, `MuxStream.dfy` is the decoder of Docker's multiplexed stream. `LoginLockout.dfy` is the lockout
of accounts in sequential runs, `LoginOutcomes.dfy` says who is let in, `LoginSessions.dfy` is the lockout with
interleaved sessions, `AuthService.dfy` the service as a class.

## What the proofs found

Where a property one would expect is not what the code does, the exact condition is proved, with an example (named
after the semicolon).

- A wrapper that is returned twice releases twice (`SubscriptionCounts.CountsEqualLiveWrappers`;
  `SubscriptionCounts.DoubleReturnForgetsASubscriber`).
- A host that is rediscovered before its old socket has closed ends up with two connections, one of which misses the
  broadcasts, because the check before a reconnect looks for the host and not for the connection object
  (`StreamLifecycle.CurrentExactlyInTidyRuns`, `StaleConnections.SyncExactlyInTidyRuns`;
  `StaleConnections.StaleConnectionMissesBroadcasts`).
- An answer of the DNS lookup that arrives after shutdown maps hosts again, but constructs no socket
  (`StreamLifecycle.EmptyAfterShutdownExactly`, `StreamLifecycle.NothingIsCreatedAfterShutdown`;
  `StreamLifecycle.AnswerAfterShutdown`).
- `hasMore` may be set when nothing is left (`LogReader.HasMoreIsHonestExactly`,
  `LogHistory.PageHasMoreIsHonestExactly`; `LogReader.OneEntryAndStillMore`).
- The error counter leaves out errors without timestamp that the search finds
  (`LogStats.ErrorCountIsTheErrorSearchExactly`; `LogStats.RawErrorIsNotCounted`).
- A limit above 500 gives shorter pages than asked for, and other lines (`LogHistory.PageLengthExactly`,
  `LogHistory.PageIsOfTheWholeExactly`; `LogHistory.LimitAboveTheMaximum`).
- The page cursor loses matches that share the timestamp at which a page ended, and never passes matches without
  timestamp (`Paging.PagingIsCompleteExactly`; `LostMatches.TieIsLost`, `LostMatches.RawLinesHaveNoCursor`).
- A file with a read error is dropped, with the matches before the error, as soon as a page has room for all of them
  (`LostMatches.PagingOfStampedMatches`; `LostMatches.BrokenFileIsLost`).
- A window with `maxLines` 0 keeps everything, and a batch that is out of order but not older than the window stays so
  (`LogWindow.FlushKeepsTheWindow`; `LogWindow.ZeroMaxLinesTrimsNothing`, `LogWindow.UnsettledFirstBatchStaysUnsorted`).
- Datetimes of years below 1000 are printed without padding and cannot be read back (`KstDatetime.RoundTripsExactly`;
  `KstDatetime.ThreeDigitYear`).
- Marked matches are escaped once more (`Highlight.HighlightingCanBeUndoneExactly`; `Highlight.EscapedMatchStays`), and
  entities are searched when matches are marked, but not when they are counted
  (`Entities.MessageIsCountedRightExactly`, `Entities.QueryIsCountedRightExactly`; `Entities.EntitiesAreSearched`,
  `Entities.AnglesAreNotSearched`).
- The find cursor may stand still when matches have gone (`FindCursor.NextFromAStaleIndexExactly`;
  `FindCursor.StaleIndexStandsStill`).
- A failure counter that is NULL never locks (`LoginLockout.FiveWrongPasswordsLockExactly`;
  `LoginLockout.NullNeverLocks`).
- The second factor does not ask for the lock: a locked account still gets tokens for an accepted code
  (`LoginLockout.TokensOfTheLockedExactly`; `LoginLockout.TokensWhileLocked`).
- A login of a pending, inactive or deleted account that has five failures makes it a locked one, since the failures are
  looked at before the status (`LoginOutcomes.ClosedAccountChangesExactly`).
- With concurrent logins five wrong passwords need not lock the account (`LoginSessions.LockedExactlyWhenDue`;
  `LoginSessions.LockMayComeLate`).

## How the source is represented

- Files are sequences of lines with two flags: whether they open, and whether a read error follows the lines. Line
  parsers are a function of the first line with text and the line; blankness and the time range are predicates.
- The DNS answer, the keys' resend order, the nodes' containers (a fixed set per node), the failing of a socket
  constructor, HTTP answers, the clock, password comparison and the acceptance of a one-time code are inputs.
- The gateway's objects are kept in append-only sequences, so that references are indices and dropped objects stay
  part of the state. React's `setLogs` callbacks are applied when they are queued.
- Timestamps are compared by code unit everywhere. Letters are folded in ASCII only.
- A message without colours becomes HTML character by character, some characters as entities; which ones, and what
  they are written as, is an input, with the predefined entities of XML 1.0 as the example.
- In `AuthService.dfy` and its models the history rows are kept with their account.

## Model

| member | source | states |
|---|---|---|
| `SubscriptionCounts.StepBalance` | apps/gateway/src/log-streamer-proxy/log-streamer-proxy.service.ts:295-320 | one subscribe or return call keeps every stored count equal to the number of wrappers in use, if and only if it is not a repeated return of a key that somebody still uses |
| `SubscriptionCounts.CountsEqualLiveWrappers` | apps/gateway/src/log-streamer-proxy/log-streamer-proxy.service.ts:334-374 | over whole runs: counts equal the wrappers in use in every state if and only if every call of the run is harmless in this sense |
| `SubscriptionCounts.ConservationOfReferences` | apps/gateway/src/log-streamer-proxy/log-streamer-proxy.service.ts:295-374 | if every wrapper is returned at most once, each count is the number of its wrappers in use, and zero is never stored |
| `SubscriptionCounts.CountsNeverZero` | apps/gateway/src/log-streamer-proxy/log-streamer-proxy.service.ts:304-320 | no run, with whatever repeated returns, stores a zero count |
| `SubscriptionCounts.AnnouncementsAlternate` | apps/gateway/src/log-streamer-proxy/log-streamer-proxy.service.ts:338-367 | the upstream messages for a key strictly alternate, subscribe first, and the last one is a subscribe exactly while the key is counted |
| `SubscriptionCounts.DoubleReturnForgetsASubscriber` | apps/gateway/src/log-streamer-proxy/log-streamer-proxy.service.ts:360-367 | two subscribers, the first returns twice: the key is dropped while the second still uses it |
| `StreamWiring.WiredInRuns` | apps/gateway/src/log-streamer-proxy/log-streamer-proxy.service.ts:118-285 | in every state of every run: tables, connections, sockets and timers point at each other consistently, a connection never has both a live socket and a pending timer, every mapped connection has one of them until shutdown |
| `StreamWiring.OpenHandlerSendsOnItsOwnSocket` | apps/gateway/src/log-streamer-proxy/log-streamer-proxy.service.ts:154-177 | the socket field that the open handler dereferences is never null and is the socket that has just opened |
| `StreamSync.ReplayResend` | apps/log-streamer/internal/handler/ws/handler.go:64-89 | a streamer that reads the resent keys, in whatever order, gains exactly the non-empty ones, for containers those that exist on its node |
| `StreamSync.CallKeepsSync` | apps/gateway/src/log-streamer-proxy/log-streamer-proxy.service.ts:287-320 | a subscribe or return call, with the broadcast it may cause, keeps: replaying what is in flight onto the streamer gives exactly the active keys |
| `StreamSync.OpenedSyncsTheSocket` | apps/gateway/src/log-streamer-proxy/log-streamer-proxy.service.ts:154-177 | the resend on open establishes this for the new socket |
| `StreamSync.StepKeepsSync` | apps/gateway/src/log-streamer-proxy/log-streamer-proxy.service.ts:99-285 | every event of the gateway, the network and the streamer keeps it |
| `StreamSync.QueuesLeadToTheActiveKeys` | apps/gateway/src/log-streamer-proxy/log-streamer-proxy.service.ts:287-451 | in every reachable state, for the open socket of every mapped connection: once the messages in flight are read, the streamer holds exactly the active service keys and the active container keys that exist on its node |
| `StreamSync.QuietStreamersHoldTheActiveKeys` | apps/log-streamer/internal/handler/ws/handler.go:64-89 | with nothing in flight the streamer holds exactly these keys now |
| `StreamTraffic.QueuesGrowExactly` | apps/gateway/src/log-streamer-proxy/log-streamer-proxy.service.ts:154-320 | in every run, on every socket: a step takes away what is read and adds what is sent, and sent are only the first subscriber and the last return of a key, once on each open socket of a mapped connection, and the keys on open |
| `StreamTraffic.OpenSocketGetsEveryKeyOnce` | apps/gateway/src/log-streamer-proxy/log-streamer-proxy.service.ts:154-177 | in every run a socket that opens has on its queue exactly one subscribe message for every active key, and nothing else |
| `StreamLifecycle.ExactlyOneActivity` | apps/gateway/src/log-streamer-proxy/log-streamer-proxy.service.ts:146-285 | until shutdown every mapped connection has exactly one socket that is not closed, or exactly one pending reconnect timer, never both |
| `StreamLifecycle.ReconcileMapsTheDiscoveredHosts` | apps/gateway/src/log-streamer-proxy/log-streamer-proxy.service.ts:118-144 | after a reconcile the mapped hosts are the discovered ones (also if the answer arrives after shutdown) |
| `StreamLifecycle.NothingIsCreatedAfterShutdown` | apps/gateway/src/log-streamer-proxy/log-streamer-proxy.service.ts:107-147 | after shutdown no step of any run constructs a socket or sets a timer |
| `StreamLifecycle.EmptyAfterShutdownExactly` | apps/gateway/src/log-streamer-proxy/log-streamer-proxy.service.ts:107-144 | over runs from any state in which the gateway is shutting down with an empty table: the table stays empty if and only if no lookup that was still under way answers with hosts |
| `StreamLifecycle.NoLookupStartsAfterShutdown` | apps/gateway/src/log-streamer-proxy/log-streamer-proxy.service.ts:118-122 | in every run: the lookups answered after a shutdown, and those still open, are the ones that were under way at the shutdown |
| `StreamLifecycle.AnswerAfterShutdown` | apps/gateway/src/log-streamer-proxy/log-streamer-proxy.service.ts:118-142 | a run with such an answer: after it one host is mapped, to a connection without socket and timer |
| `StreamLifecycle.BackoffGrows` | apps/gateway/src/log-streamer-proxy/log-streamer-proxy.service.ts:262-266 | the delay lies within 1000 and 30000 ms, starts with 1000, does not fall with the attempts and is 30000 from the sixth on |
| `StreamLifecycle.DelaysGrowBetweenOpens` | apps/gateway/src/log-streamer-proxy/log-streamer-proxy.service.ts:155-274 | of two pending timers of one connection with no open between them the later one never waits shorter |
| `Reconnects.AttemptsAreRetries` | apps/gateway/src/log-streamer-proxy/log-streamer-proxy.service.ts:155-266 | in every run the attempts of a connection are the timers that were set for it since its last open |
| `Reconnects.RetryWaits` | apps/gateway/src/log-streamer-proxy/log-streamer-proxy.service.ts:257-274 | in every run: the pending timer that is the k-th of its connection since the last open waits 1000, 2000, 4000, 8000, 16000 and from then on 30000 ms; so the first one after an open waits 1000 again |
| `StreamLifecycle.DeadStaysDead` | apps/gateway/src/log-streamer-proxy/log-streamer-proxy.service.ts:257-285 | a removed connection without socket and timer never gets one again, in any run |
| `StreamLifecycle.RemovedConnectionDiesUnlessRediscovered` | apps/gateway/src/log-streamer-proxy/log-streamer-proxy.service.ts:257-260 | the close event of a removed connection leaves it dead if and only if its host is not mapped again by then, or the gateway shuts down |
| `StreamLifecycle.CurrentExactlyInTidyRuns` | apps/gateway/src/log-streamer-proxy/log-streamer-proxy.service.ts:118-285 | over whole runs: all sockets and timers that are active belong to mapped connections if and only if no removed connection closes after its host was rediscovered |
| `StaleConnections.UntidyCloseLosesSync` | apps/gateway/src/log-streamer-proxy/log-streamer-proxy.service.ts:257-320 | in every state: after the close of a removed connection whose host was rediscovered, the timer may fire, the socket may open and a new key may be subscribed to, and then this open socket has a streamer that neither holds nor is about to hold the active keys |
| `StaleConnections.SyncExactlyInTidyRuns` | apps/gateway/src/log-streamer-proxy/log-streamer-proxy.service.ts:118-320 | over whole runs: every open socket has a streamer that holds, or is about to hold, the active keys, now and in whatever follows without such a close, if and only if there was no such close |
| `StaleConnections.StaleConnectionMissesBroadcasts` | apps/gateway/src/log-streamer-proxy/log-streamer-proxy.service.ts:257-260 | a run from the start after which two sockets to one host are open and the old one misses the broadcasts |
| `LogStreamerProxy.LogStreamerProxyService.RetainSubscription` | apps/gateway/src/log-streamer-proxy/log-streamer-proxy.service.ts:295-302 | counts up and tells whether the key is new, as the counting model does (state before and after) |
| `LogStreamerProxy.LogStreamerProxyService.ReleaseSubscription` | apps/gateway/src/log-streamer-proxy/log-streamer-proxy.service.ts:304-320 | counts down, forgets the key at zero and tells so, as the counting model does (state before and after) |
| `LogStreamerProxy.LogStreamerProxyService.BroadcastToAll` | apps/gateway/src/log-streamer-proxy/log-streamer-proxy.service.ts:287-293 | appends the message to the queue of exactly the open sockets of mapped connections (state before and after) |
| `LogStreamerProxy.LogStreamerProxyService.Subscribe` | apps/gateway/src/log-streamer-proxy/log-streamer-proxy.service.ts:333-341 | is the subscribe step of the protocol (state before and after) |
| `LogStreamerProxy.LogStreamerProxyService.ReturnWrapper` | apps/gateway/src/log-streamer-proxy/log-streamer-proxy.service.ts:360-367 | is the return step of the protocol (state before and after) |
| `LogStreamerProxy.LogStreamerProxyService.ScheduleReconnectFor` | apps/gateway/src/log-streamer-proxy/log-streamer-proxy.service.ts:257-274 | counts the attempt and sets the timer, unless shutting down or unmapped (state before and after) |
| `LogStreamerProxy.LogStreamerProxyService.Delay` | apps/gateway/src/log-streamer-proxy/log-streamer-proxy.service.ts:263-266 | the capped doubling of the delay (state before and after) |
| `LogStreamerProxy.LogStreamerProxyService.Connect` | apps/gateway/src/log-streamer-proxy/log-streamer-proxy.service.ts:146-255 | constructs a socket, or schedules a retry when that fails (state before and after) |
| `LogStreamerProxy.LogStreamerProxyService.CloseAndForget` | apps/gateway/src/log-streamer-proxy/log-streamer-proxy.service.ts:276-285 | clears the timer, closes the socket and drops the host from the table (state before and after) |
| `LogStreamerProxy.LogStreamerProxyService.Reconcile` | apps/gateway/src/log-streamer-proxy/log-streamer-proxy.service.ts:121-144 | is the reconcile step: the loops over hosts come to removing and adding the right ones at once (state before and after) |
| `LogStreamerProxy.LogStreamerProxyService.OnOpen` | apps/gateway/src/log-streamer-proxy/log-streamer-proxy.service.ts:154-177 | is the open step: attempts reset, every active key sent once (state before and after) |
| `LogStreamerProxy.LogStreamerProxyService.OnClose` | apps/gateway/src/log-streamer-proxy/log-streamer-proxy.service.ts:240-243 | is the close step (state before and after) |
| `LogStreamerProxy.LogStreamerProxyService.OnTimer` | apps/gateway/src/log-streamer-proxy/log-streamer-proxy.service.ts:268-273 | is the timer step (state before and after) |
| `LogStreamerProxy.LogStreamerProxyService.OnModuleDestroy` | apps/gateway/src/log-streamer-proxy/log-streamer-proxy.service.ts:107-116 | is the shutdown step (state before and after) |
| `StreamerSubscriptions.HandlerRefinesTheProtocol` | apps/log-streamer/internal/handler/ws/handler.go:64-89 | handling a message changes the held keys exactly as the protocol model of the streamer says, and no action of watchers or stops changes them |
| `StreamerSubscriptions.LiveStreamsAreTheMapEntries` | apps/log-streamer/internal/handler/ws/service_subscription.go:83-108 | in every interleaving, until a service is stopped its un-cancelled streams are exactly the entries of its map, at most one per container |
| `StreamerSubscriptions.StoppedServicesStreamNothing` | apps/log-streamer/internal/handler/ws/service_subscription.go:72-97 | once a stop has begun, every stream of the service is cancelled for good, also those that the watcher starts afterwards |
| `StreamerSubscriptions.ChannelsCloseOnce` | apps/log-streamer/internal/handler/ws/subscription.go:46-61 | no cancel channel is closed twice; it is closed exactly when its container is no longer subscribed |
| `StreamerSubscriptions.EmptyManagerLeaksNothing` | apps/log-streamer/internal/handler/ws/subscription.go:91-106 | whenever nothing is subscribed, every stream ever started is cancelled and every channel was closed once |
| `StreamerSubscriptions.SubscribedServiceIsStreamed` | apps/log-streamer/internal/handler/ws/service_subscription.go:39-69 | after a subscribe for a new service name the service is live, each listed container has exactly one live stream of it and no other container has one; earlier streams and services are as they were |
| `StreamerSubscriptions.OtherSubscriptionsAreIgnored` | apps/log-streamer/internal/handler/ws/subscription.go:65-77 | a subscribe for a known or empty service name changes nothing |
| `StreamerSubscriptions.ContainerEvents` | apps/log-streamer/internal/handler/ws/service_subscription.go:83-108 | a container of a live service that starts has exactly one live stream, one that dies has none, and all other streams are as they were |
| `StreamerSubscriptions.KnownContainersAreStreamed` | apps/log-streamer/internal/handler/ws/service_subscription.go:39-145 | in every interleaving, until a service is stopped: each container that it was told of (listed, or started since) and that has not died has exactly one live stream of it, and no other has one |
| `StreamerSubscriptions.SweptServiceHoldsNothing` | apps/log-streamer/internal/handler/ws/service_subscription.go:72-81 | the second half of a stop forgets the containers of the service and changes nothing else: their streams are cancelled by then |
| `StreamerSubscriptions.SubscriptionManager.Subscribe` | apps/log-streamer/internal/handler/ws/subscription.go:33-51 | adds a channel for a key that is new and exists |
| `StreamerSubscriptions.SubscriptionManager.Unsubscribe` | apps/log-streamer/internal/handler/ws/subscription.go:54-62 | closes the channel and forgets it |
| `StreamerSubscriptions.SubscriptionManager.SubscribeService` | apps/log-streamer/internal/handler/ws/subscription.go:65-77 | adds the service and streams every listed container once |
| `StreamerSubscriptions.SubscriptionManager.UnsubscribeService` | apps/log-streamer/internal/handler/ws/subscription.go:80-88 | cancels the service and all its streams |
| `StreamerSubscriptions.SubscriptionManager.StartContainerStream` | apps/log-streamer/internal/handler/ws/service_subscription.go:83-97 | starts a stream unless the container has one; a stopped service only starts cancelled ones |
| `StreamerSubscriptions.SubscriptionManager.StopContainerStream` | apps/log-streamer/internal/handler/ws/service_subscription.go:99-108 | cancels the container's stream and forgets it |
| `StreamerSubscriptions.SubscriptionManager.CloseAll` | apps/log-streamer/internal/handler/ws/subscription.go:91-106 | afterwards nothing is held, every stream is cancelled and every channel was closed exactly once |
| `StableSort.SortIsStable` | apps/gateway/src/log-history/log-history.service.ts:157-161 | the sort keeps the order of elements with equal keys |
| `StableSort.StableSortIsUnique` | apps/log-streamer/internal/logreader/reader.go:91-96 | sorted, and the same as the input on every key: only one sequence is both, so any stable sort gives it |
| `StableSort.SortWithout` | apps/gateway/src/log-history/log-history.service.ts:157-161 | leaving out one element leaves the sorted rest unchanged around one place, with bounds on that place |
| `LogWindow.TrimBeforeSorting` | apps/ui/src/hooks/useLogBuffer.ts:26-42 | trimming a sorted window before new lines come does not change the last lines of the sorted whole |
| `LogWindow.FlushKeepsTheWindow` | apps/ui/src/hooks/useLogBuffer.ts:18-45 | a flush in sorting mode keeps the window equal to the last `maxLines` of the stable sort of everything, if and only if it sorts or its batch is settled (each of the lines that stay visible is not older than the ones before it) |
| `LogWindow.WindowIsTheSortedTail` | apps/ui/src/hooks/useLogBuffer.ts:18-62 | over whole runs, with everything received computed from the events alone: in every state the window is the last `maxLines` of its stable sort if and only if every flush is of this kind |
| `LogWindow.SortedBatchesKeepTheWindow` | apps/ui/src/hooks/useLogBuffer.ts:26-31 | in particular it holds when what arrives between frames is always sorted in itself |
| `LogWindow.UnsortedWindowIsTheTail` | apps/ui/src/hooks/useLogBuffer.ts:23-44 | without sorting, over whole runs: the window is the last `maxLines` of the lines that the events before the last frame added since the last clear, and from the batch start on exactly what is left of the newest of them |
| `LogWindow.FlushMarksTheBatch` | apps/ui/src/hooks/useLogBuffer.ts:22-43 | after a flush that sorts no line is marked as new, after any other exactly what is left of its batch |
| `LogWindow.BatchIsWhatWaits` | apps/ui/src/hooks/useLogBuffer.ts:18-62 | in every run the batch is exactly what the events since the last frame and clear added, and a flush is scheduled if and only if something waits: no line is lost, and the next line after a flush schedules another |
| `LogWindow.ZeroMaxLinesTrimsNothing` | apps/ui/src/hooks/useLogBuffer.ts:35-36 | with `maxLines` 0 nothing is trimmed at all |
| `LogWindow.UnsettledFirstBatchStaysUnsorted` | apps/ui/src/hooks/useLogBuffer.ts:26-30 | a first batch that is out of order stays so |
| `LogWindow.LogBuffer.AddLog` | apps/ui/src/hooks/useLogBuffer.ts:47-52 | the hook's refs and state after the call are those of the window model |
| `LogWindow.LogBuffer.FlushBatch` | apps/ui/src/hooks/useLogBuffer.ts:18-45 | the hook's refs and state after the call are those of the window model |
| `LogWindow.LogBuffer.ClearLogs` | apps/ui/src/hooks/useLogBuffer.ts:54-62 | the hook's refs and state after the call are those of the window model |
| `LogLines.GroupingKeepsEverything` | apps/log-streamer/internal/logreader/reader.go:357-379 | grouping loses no text and no timestamp; entries without timestamp come first; without any timestamp every line is an entry |
| `LogLines.ReadText` | apps/log-streamer/internal/logreader/reader.go:357-379 | what one more line does to the settled entries and the open entry |
| `LogEntries.TextsAre` | apps/log-streamer/internal/logreader/reader.go:325-352 | the lines with text, in order, each read by the parser that the first of them chose, with the name of its file and its own number |
| `LogEntries.EntriesAreBlocks` | apps/log-streamer/internal/logreader/reader.go:354-379 | the grouping, built line by line from the left, is: a line without timestamp before all others is an entry; any other entry is a line with timestamp and all lines up to the next one, their messages joined with newlines |
| `LogSearch.HoldingsAre` | apps/log-streamer/internal/logreader/reader.go:312-380 | what the loop holds after any number of lines: the chosen parser, the filtered settled entries, the open entry |
| `LogSearch.SearchFile` | apps/log-streamer/internal/logreader/reader.go:300-399 | the streaming loop returns the first `limit` matches of the grouped file, fails exactly on unreadable files and on read errors it runs into, and sets `hasMore` exactly when there are more, or exactly `limit` without a matching raw line at the end; fewer than `limit` lines are held at every loop head |
| `SearchFilters.SearchIsRestricted` | apps/log-streamer/internal/logreader/reader.go:521-540 | for a level, a keyword, a cursor or time bounds: a search with it finds, in order, exactly those matches of the same search without it that meet it; a keyword is met if the message, source or metadata, folded, is some text, the folded keyword, and some text |
| `SearchFilters.PlainSearchFindsAll` | apps/log-streamer/internal/logreader/reader.go:300-399 | without any of these a search finds every entry of the files |
| `LogReader.FileSearchIsExact` | apps/log-streamer/internal/logreader/reader.go:394-398 | of one file: `hasMore` means exactly `limit` lines, no `hasMore` means all of them |
| `LogReader.SearchOne` | apps/log-streamer/internal/logreader/reader.go:272-291 | one file of the loop, with the remaining limit: a failure is passed over |
| `LogReader.Search` | apps/log-streamer/internal/logreader/reader.go:266-296 | the loop over files, with its early end, is the fold of the file searches |
| `LogReader.SearchIsExact` | apps/log-streamer/internal/logreader/reader.go:266-296 | the result is the first `limit` of the concatenated matches of the files that do not fail, with the same two readings of `hasMore`; every readable file counts |
| `LogReader.OpenedFilesAreKept` | apps/log-streamer/internal/logreader/reader.go:279-283 | without read errors the files that open are searched, and no others |
| `LogReader.NoLimitMeansAHundred` | apps/log-streamer/internal/logreader/reader.go:242-245 | without a positive limit a search returns the first hundred matches, or all if there are fewer |
| `LogReader.HasMoreIsHonestExactly` | apps/log-streamer/internal/logreader/reader.go:272-296 | for any files: `hasMore` says whether the files that do not fail have more than `limit` matches, if and only if they have not exactly `limit`, or the last one is a raw line that ends the last file, which opens |
| `LogReader.OneEntryAndStillMore` | apps/log-streamer/internal/logreader/reader.go:394-396 | with one match and limit 1, `hasMore` is set although nothing is left |
| `LogReader.StartedIsSuchASearch` | apps/log-streamer/internal/logreader/reader.go:394-396 | a concrete file for which that happens |
| `LogStats.CountFile` | apps/log-streamer/internal/logreader/reader.go:446-518 | the counting loop counts exactly the entries of the lines it could read, and reports whether the file was readable |
| `LogStats.Stats` | apps/log-streamer/internal/logreader/reader.go:416-443 | the loop over files adds them up, keeping partial counts of files with errors |
| `LogStats.EveryLineReadIsCounted` | apps/log-streamer/internal/logreader/reader.go:416-518 | for any files: the counters are those of all entries of the files that open; the entries before a read error stay counted |
| `SearchFilters.TotalIsTheEntriesInTime` | apps/log-streamer/internal/logreader/reader.go:484-509 | on readable files the total is the number of entries within the time bounds |
| `LogStats.StatsMatchSearch` | apps/log-streamer/internal/logreader/reader.go:416-518 | on readable files the total is the number of entries that a search with the same time bounds finds; the error counter plus the raw error entries is the size of the error search; likewise warnings, infos and debugs |
| `LogStats.SearchReturnsTheTotal` | apps/log-streamer/internal/logreader/reader.go:242-443 | a search with these bounds returns min(limit, total) lines |
| `LogStats.ErrorCountIsTheErrorSearchExactly` | apps/log-streamer/internal/logreader/reader.go:473-509 | the error counter is the size of the error search if and only if there are time bounds, or no entry without timestamp has that level |
| `LogStats.RawErrorIsNotCounted` | apps/log-streamer/internal/logreader/reader.go:505-509 | a concrete file with an error that the search finds and the counter leaves out |
| `LogStats.LevelsFitInTheTotal` | apps/log-streamer/internal/logreader/reader.go:472-482 | the four level counters never exceed the total |
| `LogStats.FoldsAgree` | apps/log-streamer/internal/logreader/reader.go:473-473 | comparing by upper case, as here, and by case folding, as the search does, come to the same |
| `LogFiles.Compact` | apps/log-streamer/internal/logreader/reader.go:80-88 | removing duplicate names in place, in the array that is being read, leaves exactly the distinct files in front |
| `LogFiles.DistinctNames` | apps/log-streamer/internal/logreader/reader.go:80-88 | no name twice, and every scanned name once |
| `LogFiles.DistinctKeepsTheFirst` | apps/log-streamer/internal/logreader/reader.go:82-86 | kept are exactly the first-scanned files of their names |
| `LogFiles.DistinctKeepsOrder` | apps/log-streamer/internal/logreader/reader.go:82-86 | in the order of the scans |
| `LogFiles.KeyOrders` | apps/log-streamer/internal/logreader/reader.go:91-96 | the sort key orders by date and on one date by rotation number |
| `LogFiles.ListFiles` | apps/log-streamer/internal/logreader/reader.go:64-99 | the three scans, compacted in place and sorted |
| `LogFiles.ListIsTheOrderedDistinctFiles` | apps/log-streamer/internal/logreader/reader.go:90-98 | the list is the one sequence that is in order and keeps the scan order of files that tie |
| `LogFiles.ListHasTheScannedNames` | apps/log-streamer/internal/logreader/reader.go:80-98 | it is a permutation of the distinct files and has every scanned name |
| `LogFiles.ListIsInOrder` | apps/log-streamer/internal/logreader/reader.go:91-96 | any two files of the list are in order and have different names |
| `LogHistory.Search` | apps/gateway/src/log-history/log-history.service.ts:140-172 | node filter, concatenation, sort, cut and `hasMore`, for any limit |
| `LogHistory.DropTail` | apps/gateway/src/log-history/log-history.service.ts:147-167 | of one sorted list only the first `k` lines can be among the first `k` of everything |
| `LogHistory.MergeIsTheFirstOfAll` | apps/gateway/src/log-history/log-history.service.ts:140-167 | for limits from 1 to 500 and sorted matches of every node, the page is the first `limit` of the stable sort of all matches of all nodes |
| `LogHistory.MergeIsTheFirstOfFirsts` | apps/gateway/src/log-history/log-history.service.ts:147-167 | for any positive limit and matches in any order, the page is the first `limit` of the stable sort of the first lines of every node |
| `LogHistory.NoMoreMeansAll` | apps/gateway/src/log-history/log-history.service.ts:140-167 | without `hasMore` nothing was left out, in whatever order the nodes found their lines |
| `LogHistory.MoreMeansFull` | apps/gateway/src/log-history/log-history.service.ts:154-167 | with `hasMore` the page has exactly `limit` lines (1 to 500) |
| `LogHistory.PageHasMoreIsHonestExactly` | apps/gateway/src/log-history/log-history.service.ts:140-167 | for any positive limit: `hasMore` of the page says whether there are more than `limit` matches on the nodes heard, if and only if there are, or none of their streamers said so of its own |
| `LogHistory.NegativeLimitCutsTheEnd` | apps/gateway/src/log-history/log-history.service.ts:163-167 | a negative limit leaves out that many lines at the end, and there is said to be more |
| `LogHistory.PageIsOfTheWholeExactly` | apps/log-streamer/internal/handler/logfiles.go:104-112 | for any positive limit and matches in any order, the page is the first `limit` of the stable sort of all matches if and only if no line that a streamer cut off belongs to these (no cut line being the same as a returned one) |
| `LogHistory.PageLengthExactly` | apps/log-streamer/internal/handler/logfiles.go:104-112 | for any positive limit, the page has min(limit, total) lines if and only if the streamers, cut to what they return at most, have enough together, or none was cut |
| `LogHistory.LimitAboveTheMaximum` | apps/log-streamer/internal/handler/logfiles.go:104-112 | such a page: one node with a log of 501 matches, limit 501, 500 lines shown |
| `LogHistory.StreamersAnswerExactly` | apps/log-streamer/internal/handler/logfiles.go:104-138 | a streamer's answer is the first lines of its matches, with a `hasMore` as the merge needs it |
| `LogHistory.SearchFindsTheFirstMatches` | apps/gateway/src/log-history/log-history.service.ts:86-172 | all loops together, from log lines over files and nodes to the page, for any node filter and any streamers that do not answer: the first `limit` matches of the nodes that are heard, and everything if `hasMore` is missing |
| `LogHistory.LinesNameTheirNode` | apps/gateway/src/log-history/log-history.service.ts:140-167 | every line of a page carries the name of a node that is heard, and was returned by the search of that node |
| `LogHistory.MergeStats` | apps/gateway/src/log-history/log-history.service.ts:179-205 | adds up the counters of the accepted answers |
| `LogHistory.SummaryAddsUp` | apps/gateway/src/log-history/log-history.service.ts:179-205 | for any node filter and any requests that fail: every number of the merged summary is the sum of the number of that name over the nodes that are heard |
| `LogHistory.SummaryCountsTheSearch` | apps/gateway/src/log-history/log-history.service.ts:179-205 | without read errors the summary total is the number of lines that a search without level, keyword and cursor has on these nodes |
| `ReadErrors.SteadySearch` | apps/log-streamer/internal/logreader/reader.go:264-298 | a search that drops no file with matches is about all matches of the files that open, up to their ends or read errors |
| `ReadErrors.FailsLater` | apps/log-streamer/internal/logreader/reader.go:277-282 | a file that is dropped for its read error is dropped with every later cursor too |
| `ReadErrors.DroppedMatch` | apps/log-streamer/internal/logreader/reader.go:277-282 | if a search drops matches after its cursor, then one of them is kept less often than the files have it, with this cursor and with every later one |
| `Paging.PagesAdvance` | apps/ui/src/features/history/components/SearchPanel.tsx:112-118 | of matches with timestamps every page but the last brings the reader `limit` lines further |
| `Paging.FilterWithCursor` | apps/log-streamer/internal/logreader/reader.go:535-535 | the filter with a cursor is the filter without, and then the lines after the cursor and those without timestamp |
| `Paging.SortOfNewer` | apps/gateway/src/log-history/log-history.service.ts:157-161 | dropping what the cursor leaves behind commutes with the stable sort |
| `Paging.PagesAreOfTheWhole` | apps/ui/src/features/history/components/SearchPanel.tsx:84-103 | for any node filter, with streamers that do not answer, files that do not open and files that break off, every answer to a request that drops no matches is a page of the sorted whole of the nodes heard, from the cursor on |
| `Paging.StrippedRun` | apps/log-streamer/internal/logreader/reader.go:535-535 | every page repeats the matches without timestamp; without them the pages are shorter pages of the other matches |
| `Paging.PagingIsCompleteExactly` | apps/ui/src/features/history/components/SearchPanel.tsx:112-118 | with `u` matches without timestamp, and requests that drop no matches: below `limit` the other matches are read in pages of `limit - u`, so paging ends, and at its end every match was shown, in order and (but for those `u`) once, if and only if no page ended between two matches of one timestamp; from `limit` on the first page is the only one, and it shows everything if and only if there are exactly `limit` matches (matches of each node in order; limit 1 to 500) |
| `LostMatches.DroppedIsLost` | apps/log-streamer/internal/logreader/reader.go:277-282 | if a request drops matches, then one of those after its cursor comes on its page, and on every later page, less often than it should |
| `LostMatches.PagingOfStampedMatches` | apps/ui/src/features/history/components/SearchPanel.tsx:112-118 | if all matches have timestamps, the pages joined are all matches of all nodes heard if and only if no request dropped a file with matches after the cursor and no page ended in a tie; read errors included |
| `LostMatches.PagingWithDistinctTimestamps` | apps/ui/src/features/history/components/SearchPanel.tsx:112-118 | so with distinct timestamps everything is shown if and only if no request dropped matches |
| `Paging.ReadingGoesOnExactly` | apps/ui/src/features/history/components/SearchPanel.tsx:112-118 | while there is more, there is a cursor to go on with if and only if fewer than `limit` matches have no timestamp (requests that drop no matches) |
| `LostMatches.TieIsLost` | apps/log-streamer/internal/logreader/reader.go:535-535 | one node with one log of two lines of one timestamp, pages of one line: after two requests reading ends, and the second line was not shown |
| `LostMatches.RawLinesHaveNoCursor` | apps/ui/src/features/history/components/SearchPanel.tsx:112-118 | the same log without timestamps: there is said to be more after the first page, but there is no cursor to ask for it |
| `LostMatches.BrokenFileIsLost` | apps/log-streamer/internal/logreader/reader.go:277-282 | one node with one log of one line and then a read error, pages of one line: the page is empty, and reading ends |
| `Calendar.YearOfDay` | apps/auth/src/database/kst-datetime.ts:17-17 | the year found for a day number is the one it lies in (section 21.4.1 of ECMA-262) |
| `Calendar.MonthsAndYears` | apps/auth/src/database/kst-datetime.ts:40-50 | the lengths of the months and years, leap years included (section 21.4.1 of ECMA-262) |
| `Calendar.EarlyYearsAreShifted` | apps/auth/src/database/kst-datetime.ts:40-50 | Date.UTC takes the years 0 to 99 as 1900 to 1999 |
| `Calendar.FieldsThenUtc` | apps/auth/src/database/kst-datetime.ts:14-22 | the date and time shown for a time value are valid, and Date.UTC takes them back, except in the years 0 to 99 |
| `Calendar.UtcThenFields` | apps/auth/src/database/kst-datetime.ts:40-50 | valid fields are what their Date.UTC shows (section 21.4.3.4 of ECMA-262) |
| `Calendar.InOrderExactly` | apps/auth/src/database/kst-datetime.ts:14-22 | fields are ordered exactly as time values are |
| `Decimals.PadIsFixed` | apps/auth/src/database/kst-datetime.ts:9-11 | padding gives the fixed-width digits of a number that fits |
| `KstDatetime.RoundTripsExactly` | apps/auth/src/database/kst-datetime.ts:13-51 | for every valid instant, parsing its text gives it back if and only if its Korean year is 1000 to 9999 |
| `KstDatetime.PrintedNineHoursAhead` | apps/auth/src/database/kst-datetime.ts:3-14 | what is printed for an instant, read as UTC, is nine hours after it |
| `KstDatetime.LeapDayIsPrinted` | apps/auth/src/database/kst-datetime.ts:13-51 | an instant of a leap day, its text, and back |
| `KstDatetime.WrittenIsParsed` | apps/auth/src/database/kst-datetime.ts:26-51 | any digits in the shape of a datetime, with a space or a T, with up to six digits of a second or none, with any white space around: read as the instant nine hours before their Date.UTC, the fraction cut to milliseconds |
| `KstDatetime.ParsedIsWritten` | apps/auth/src/database/kst-datetime.ts:26-38 | every text that is read has this shape |
| `KstDatetime.ThreeDigitYear` | apps/auth/src/database/kst-datetime.ts:13-51 | an instant of the year 999 is printed with a year of three digits, which is an error when read |
| `KstDatetime.FormatKeepsOrder` | apps/auth/src/database/kst-datetime.ts:13-24 | for these years one instant is before another if and only if its text is lexicographically less |
| `KstDatetime.PrintsTheNormalFormExactly` | apps/auth/src/database/kst-datetime.ts:26-51 | printing what was parsed gives the text with a space and three fraction digits, if and only if it is a calendar date and time of day from year 1000 on |
| `KstDatetime.ParsedTimesAreInRange` | apps/auth/src/database/kst-datetime.ts:40-50 | everything that parses is a valid time value, also after rolling over |
| `MuxStream.ReadHeader` | apps/log-streamer/internal/handler/ws/stream.go:50-62 | the header buffer is refilled; label and length are those of the frame that follows |
| `MuxStream.SendLines` | apps/log-streamer/internal/handler/ws/stream.go:75-83 | trimming, splitting and skipping send a message for each of exactly the non-empty lines |
| `MuxStream.StreamMuxLogs` | apps/log-streamer/internal/handler/ws/stream.go:40-85 | the loop sends the messages for what the decoding of the stream says, up to its end or its cancellation |
| `MuxStream.SendServiceLines` | apps/log-streamer/internal/handler/ws/service_stream.go:48-57 | the same for the second copy |
| `MuxStream.StreamServiceMuxLogs` | apps/log-streamer/internal/handler/ws/service_stream.go:14-59 | the second copy of the loop, against the same decoding |
| `MuxStream.FramesBecomeMessages` | apps/log-streamer/internal/handler/ws/service_stream.go:14-59 | from frames to messages: for any frames and a proper prefix of a further one, what is sent are the messages for the lines of the complete frames |
| `MuxStream.TwoLinesOfAFrame` | apps/log-streamer/internal/handler/ws/stream.go:50-83 | a frame of kind 2 comes from the standard error and any other from the standard output; byte 10 ends its lines |
| `MuxStream.CopiesAgree` | apps/log-streamer/internal/handler/ws/service_subscription.go:208-229 | the two copies send the same messages, but for the name of the service |
| `MuxStream.DecodingInvertsFraming` | apps/log-streamer/internal/handler/ws/stream.go:38-85 | for any frames with payloads below 2^32 bytes and any proper prefix of a further frame, the lines of the complete frames come out in order and with their labels |
| `MuxStream.CancelledDecoding` | apps/log-streamer/internal/handler/ws/stream.go:44-48 | cancelled after some rounds, it has sent the lines of as many frames |
| `MuxStream.WrittenLinesAreRead` | apps/log-streamer/internal/handler/ws/stream.go:75-83 | what is written line by line is read line by line, without the empty lines |
| `MuxStream.PayloadLinesAreLines` | apps/log-streamer/internal/handler/ws/stream.go:75-83 | for any payload: the lines are non-empty, without newline, and together all of it but its newlines |
| `MuxStream.SendLogLine` | apps/log-streamer/internal/handler/ws/stream.go:107-127 | the container copy: cut at the first space behind a timestamp, or whole |
| `MuxStream.SendServiceLogLine` | apps/log-streamer/internal/handler/ws/service_subscription.go:208-229 | the service copy sends the same message with the service name |
| `MuxStream.IndexOf` | apps/log-streamer/internal/handler/ws/service_subscription.go:231-238 | finds what the library search finds: the first place, or -1 |
| `MuxStream.MessageIsTheLine` | apps/log-streamer/internal/handler/ws/stream.go:111-116 | timestamp, space and message are the original line again; the timestamp is not empty and has no space |
| `MuxStream.StampedLineIsCut` | apps/log-streamer/internal/handler/ws/stream.go:111-116 | and back: a line written as timestamp, space and text is sent with that timestamp and that text |
| `MuxStream.StampsAreRecognised` | apps/log-streamer/internal/handler/ws/stream.go:107-116 | a timestamp is recognised by a line of more than 30 bytes with byte 45 at 4 and byte 84 at 10, and only then cut off |
| `Highlight.ReplaceMatches` | apps/ui/src/utils/highlight-html.ts:34-42 | marks the matches of one text from the left, without overlaps, and numbers them on |
| `Highlight.HighlightParts` | apps/ui/src/utils/highlight-html.ts:27-45 | the map over the parts threads the number of the next match through all of them |
| `Highlight.HighlightHtml` | apps/ui/src/utils/highlight-html.ts:10-46 | tags unchanged, text marked, matches counted |
| `Highlight.PartsInTurn` | apps/ui/src/utils/highlight-html.ts:24-31 | splitting gives tags that end with their only `>` and text without tags, and the test tells them apart |
| `Highlight.PartsJoin` | apps/ui/src/utils/highlight-html.ts:24-24 | the parts joined are the HTML |
| `Highlight.MarksAreNumbered` | apps/ui/src/utils/highlight-html.ts:25-45 | there are `matchCount` marks, the one number `currentPosition` and no other is current, and the pieces hold all of the HTML |
| `Highlight.MarksAreTheMatches` | apps/ui/src/utils/highlight-html.ts:34-42 | the pieces of a text from left to right: where the query stands, in upper or lower case, it is marked as a whole, and any other character is left as it is |
| `Highlight.OnlyTheQueryIsMarked` | apps/ui/src/utils/highlight-html.ts:27-42 | in a whole document every marked piece is the query in upper or lower case |
| `Highlight.MarksAreWritten` | apps/ui/src/utils/highlight-html.ts:38-42 | a marked piece is written as its escaped text between the tags of its class, the current one with a class of its own |
| `Highlight.HighlightingCanBeUndoneExactly` | apps/ui/src/utils/highlight-html.ts:27-45 | erasing marks from the result gives the HTML (less marks of its own) if and only if the query has no `&`, `<`, `>` or does not occur |
| `Highlight.EscapedMatchStays` | apps/ui/src/utils/highlight-html.ts:40-41 | such a query: `&` in `a&b`, of which the entity stays when the marks are erased |
| `FindCursor.CountMatches` | apps/ui/src/hooks/useLogSearch.ts:36-47 | the count is the number of matches that highlighting marks in that text |
| `FindCursor.FindMatches` | apps/ui/src/hooks/useLogSearch.ts:74-84 | lists exactly the lines with matches, with their counts |
| `FindCursor.CurrentMatch` | apps/ui/src/hooks/useLogSearch.ts:92-119 | the place of the clamped index; the fallback behind the loop is never reached |
| `FindCursor.EveryIndexHasAPlace` | apps/ui/src/hooks/useLogSearch.ts:95-112 | an index stands for a line and a position below that line's count, with as many matches before it |
| `FindCursor.EveryPlaceHasAnIndex` | apps/ui/src/hooks/useLogSearch.ts:95-112 | and every such place has an index that leads to it: a one-to-one correspondence |
| `FindCursor.CurrentMatchIsMarked` | apps/ui/src/utils/highlight-html.ts:34-42 | in a line that is its own HTML, highlighting makes the match under the cursor the current one and no other |
| `FindCursor.CountsAgree` | apps/ui/src/hooks/useLogSearch.ts:36-47 | for text that is its own HTML both count the same |
| `Entities.MessageIsCountedRightExactly` | apps/ui/src/components/HighlightedAnsiText.tsx:19-23 | of a message whose HTML writes some characters as entities (any table of them), every query is marked as often as it is counted if and only if the message has none of these characters |
| `Entities.QueryIsCountedRightExactly` | apps/ui/src/utils/highlight-html.ts:19-42 | any query is marked as often as it is counted in every message if and only if it has none of these characters, no entity contains it and none ends with the start of it (entities with none of the characters behind their ampersand) |
| `Entities.EscapedTextIsCountedRightExactly` | apps/ui/src/utils/highlight-html.ts:40-40 | the same for the three characters that a match is escaped for: all counts agree if and only if the text has none of them |
| `Entities.EntitiesAreSearched` | apps/ui/src/components/HighlightedAnsiText.tsx:5-23 | a message that has no "amp" and is marked for it |
| `Entities.AnglesAreNotSearched` | apps/ui/src/components/HighlightedAnsiText.tsx:5-23 | a message that is an angle, which is counted and never marked |
| `FindCursor.SearchState.Next` | apps/ui/src/hooks/useLogSearch.ts:121-124 | the index after a step forward |
| `FindCursor.SearchState.Prev` | apps/ui/src/hooks/useLogSearch.ts:126-129 | the index after a step back |
| `FindCursor.NextAndPrevAreInverse` | apps/ui/src/hooks/useLogSearch.ts:121-129 | in range the two steps are inverse to each other and stay in range |
| `FindCursor.NextReachesAll` | apps/ui/src/hooks/useLogSearch.ts:121-124 | going on reaches every match, in as many steps as it lies ahead |
| `FindCursor.NextFromAStaleIndexExactly` | apps/ui/src/hooks/useLogSearch.ts:92-124 | when matches have gone, the next step leads where the view suggests if and only if the kept index is in range or one short of a multiple of the total |
| `FindCursor.StaleIndexStandsStill` | apps/ui/src/hooks/useLogSearch.ts:92-124 | such an index: 4 with three matches left |
| `LoginLockout.PlanDoes` | apps/auth/src/auth/auth.service.ts:45-114 | what each branch of an operation does to counter and status |
| `LoginOutcomes.LoginOutcomeExactly` | apps/auth/src/auth/auth.service.ts:39-87 | for every row: which answer a login gets, said of the row alone; tokens or a second factor exactly with a status that is not pending, inactive, deleted or locked, fewer than five failures, the right password and a change less than 90 days ago, and the claims or the key that are needed |
| `LoginOutcomes.OtherOutcomesExactly` | apps/auth/src/auth/auth.service.ts:89-155 | likewise for a second factor and a change of the password |
| `LoginOutcomes.LoginEffect` | apps/auth/src/auth/auth.service.ts:39-87 | what a login makes of the account and its history, in every case |
| `LoginOutcomes.OtherEffects` | apps/auth/src/auth/auth.service.ts:89-155 | likewise for a second factor and a change of the password |
| `LoginOutcomes.ChangedPasswordLastsNinetyDays` | apps/auth/src/auth/auth.service.ts:132-190 | the changed password logs in for 90 days from the change |
| `LoginOutcomes.ClosedAccountChangesExactly` | apps/auth/src/auth/auth.service.ts:45-61 | a login of a pending, inactive or deleted account issues no tokens, and changes the row if and only if it has five failures, which makes it a locked one |
| `LoginOutcomes.TokensOfTheClosedExactly` | apps/auth/src/auth/auth.service.ts:89-115 | in every run from such an account with fewer than five failures: it stays as it is, and gets one token pair for every accepted code, if it has a key and its claims |
| `LoginOutcomes.ClosedAccountsLogNobodyIn` | apps/auth/src/auth/auth.service.ts:157-171 | after any such run a login is refused with the error of the status |
| `LoginLockout.LockedExactlyAfterFive` | apps/auth/src/auth/auth.service.ts:220-239 | in every run from an unlocked account with counter 0: the counter is the number of wrong passwords since its last reset, and the account is locked if and only if there were once five without a reset between |
| `LoginLockout.LockedForGood` | apps/auth/src/account/account.service.ts:41-46 | no operation ever unlocks an account |
| `LoginLockout.TokensOfTheLockedExactly` | apps/auth/src/auth/auth.service.ts:89-115 | in every run from a locked account: it gets one token pair for every second factor with an accepted code, if it has a secret key and its claims, and none otherwise; it stays locked, and any token pair sets its counter to 0 |
| `LoginLockout.TokensWhileLocked` | apps/auth/src/auth/auth.service.ts:89-115 | the right password, five wrong ones and then the code: the account is locked and gets its tokens |
| `LoginLockout.HistoryTellsTheRun` | apps/auth/src/login-history/login-history.service.ts:17-58 | the history has one success row per issued token pair and one failure row per wrong password or login that met a lock |
| `LoginLockout.FiveWrongPasswordsLockExactly` | apps/auth/src/account/account.service.ts:34-39 | five wrong passwords in a row lock an account with a counter of NULL or 0 if and only if it is not NULL; nothing else of the row changes |
| `LoginLockout.NullNeverLocks` | apps/auth/src/account/account.service.ts:34-39 | with a counter of NULL no number of wrong passwords locks the account |
| `LoginSessions.RunKeeps` | apps/auth/src/auth/auth.service.ts:45-114 | with any interleaving of sessions, the account is what the written statements made of it, and what was planned is written or still to be written |
| `LoginSessions.NoIncrementIsLost` | apps/auth/src/account/account.service.ts:34-39 | with any interleaving, the counter is the number of sessions that met a wrong password and wrote their increment after the last reset |
| `LoginSessions.WrongPasswordIsWritten` | apps/auth/src/auth/auth.service.ts:220-225 | the increment of every wrong password whose session is done was written by some event of the run |
| `LoginSessions.QuietHistoryTellsTheRun` | apps/auth/src/login-history/login-history.service.ts:17-58 | when all sessions are done, rows and increments match token pairs, failed logins and wrong passwords |
| `LoginSessions.LocksExactlyWhenDue` | apps/auth/src/auth/auth.service.ts:53-69 | an operation plans to lock the account if and only if it is a login that reads no lock yet and a count of five or more, or a count of four with the wrong password |
| `LoginSessions.LockedExactlyWhenDue` | apps/auth/src/auth/auth.service.ts:220-254 | with any interleaving, resets included: when all sessions are done the account is locked if and only if one of them planned to lock it, that is, if and only if some login read such a row |
| `LoginSessions.ConcurrentLockoutExactly` | apps/auth/src/auth/auth.service.ts:53-59 | with any interleaving, resets included: when all sessions are done logins are refused if and only if some login read such a row, or five wrong passwords were written after the last reset |
| `LoginSessions.FiveWrongPasswordsLockOut` | apps/auth/src/auth/auth.service.ts:53-59 | if no session resets the counter, that is if and only if there were at least five wrong passwords |
| `LoginSessions.LockMayComeLate` | apps/auth/src/auth/auth.service.ts:226-232 | five wrong passwords without the lock: two sessions that both read the count 3 leave the counter at five; the next login sets the lock |
| `LoginSessions.LockedStays` | apps/auth/src/account/account.service.ts:41-46 | no interleaving unlocks an account |
| `AuthService.AccountService.Update` | apps/auth/src/account/account.service.ts:34-77 | an update changes the row with the id, if there is one |
| `AuthService.Service.Login` | apps/auth/src/auth/auth.service.ts:39-87 | tables and answer after a login are those of the plan that the account row decides |
| `AuthService.Service.HandleFailedLogin` | apps/auth/src/auth/auth.service.ts:220-239 | counts, locks at five, records |
| `AuthService.Service.HandleLockedLogin` | apps/auth/src/auth/auth.service.ts:241-254 | locks if not locked yet, records |
| `AuthService.Service.StartSecondFactor` | apps/auth/src/auth/auth.service.ts:74-82 | resets the counter and registers a second factor if required |
| `AuthService.Service.IssueTokens` | apps/auth/src/auth/auth.service.ts:300-327 | refuses without claims, otherwise records the success |
| `AuthService.Service.VerifyTwoFactor` | apps/auth/src/auth/auth.service.ts:89-115 | tables and answer are those of the plan that the account row decides |
| `AuthService.Service.ChangePassword` | apps/auth/src/auth/auth.service.ts:132-155 | tables and answer are those of the plan that the account row decides |

## Left out

- The parsers of log lines (Log4j2, JSON, raw) and of time bounds: any parser and any time range is covered.
- Gzip, scanner buffers and directory scans: a file is its lines and its flags, a scan is its list of files.
- Redis topics, message publishing, GraphQL, HTTP, circuit breakers and logging.
- The order in which the streamer's two maps are emptied on close, and the request context that also cancels a service: closing is modelled as in the deferred call, cancelling as part of it.
- Completeness of service streams against Docker: events may be missed between listing and watching; what is proved is about the containers that were listed and the events that were seen.
- TTY streams: every non-empty line is sent with the label of standard output, without a decoder.
- Locale order: `localeCompare` and byte order agree with the order used here on timestamps of one format only.
- Unicode case folding: only ASCII letters are folded, in searches, highlighting and counting.
- Filter mode of the log search, debouncing, auto-scroll and rendering.
- The conversion of ANSI colours to HTML tags: the agreement of count and marks is stated for messages without colours.
- Token signing, hashing and one-time codes; token expiry is an error before the modelled part, and refreshing tokens changes no row.
- Two accounts at once: statements on one account do not touch another one, so sessions are modelled for one account.
- `scanDir` and `extractRotationNum`: date and rotation number are given with the scanned file.
- Paging.PagingIsCompleteExactly: covers nodes that find their matches in order, and requests that drop no matches. If one drops some, LostMatches.PagingOfStampedMatches says that reading is incomplete, for matches with timestamps; where some have none, the drop may only concern lines that an earlier page has shown.
- Entities.QueryIsCountedRightExactly: covers tables whose entities have no encoded character behind the ampersand, as those of XML.
- Streamers that answer for some pages only: which nodes answer, and what the files hold, stays the same while one reads.
- StreamSync.QueuesLeadToTheActiveKeys: speaks of sockets of mapped connections whose streamer still reads; StaleConnections.SyncExactlyInTidyRuns says when it is so for all open sockets.
- MuxStream.StreamMuxLogs: the cancellation is seen at the head of a round only, as in the source; a read that is interrupted is the end of the stream.
