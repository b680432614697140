# NapCat QQ Manager: verified model

A Dafny model of the state machines of the NapCat QQ manager: a Python control plane that runs QQ bots in
containers, and its web front end. Docker, HTTP, SQLite and the clock are not modelled themselves; their answers
(listings, port snapshots, faults, query results, the time of a step) are parameters, so every theorem holds for
every behaviour of theirs. `dafny verify dfyconfig.toml` checks everything.

Each component appears in up to three layers.

- A specification: pure functions on values that do what one operation of the source does, branch by branch.
- The imperative form: classes and loops that change fields, maps and objects in place, each method proved to move
  the state exactly as the specification function says.
- Theorems over whole runs: `trace` is the sequence of states, `events` the steps between them, `IsRun` says that
  each step is possible and that the clock does not go back. Steps of different actors interleave freely.

| file | component |
|---|---|
| `WsRegistry.dfy`, `WsService.dfy` | reverse WebSocket connections: registry with grace period, API proxies, pending calls |
| `MessageFeed.dfy` | 200-slot message ring and the subscriber's cursor |
| `PatchPush.dfy` | public channel: one full snapshot, then patches |
| `OperationLog.dfy`, `LogReads.dfy` | buffered operation log over a table with failing writes, and the merged read |
| `Instances.dfy`, `StateEngine.dfy` | instance table, state engine tick, login state, heartbeat time-outs |
| `Sessions.dfy`, `LoginLockout.dfy`, `RateLimiter.dfy` | sessions, lock-out after failed logins, rate limiting |
| `PortAllocator.dfy`, `Injection.dfy`, `Endpoints.dfy` | port reservations, inject-once guard, endpoint lists |
| `ContainerConfig.dfy`, `Decimal.dfy` | container config builder and reader, recreation |
| `PullStream.dfy` | newline-delimited JSON reader of the image page |

## What the code does not do

Where a plausible property is false, the code is modelled as it is and the theorem says exactly when it holds.

- A name can be reported connected long after its bot left: closing any other socket of a name whose entry is
  bound to none restarts the 15 s grace period (`WsRegistry.AliveExact`, `WsRegistry.StrayExample`).
- After the grace period, events on a connection without `X-Self-Id` do not bring an entry back
  (`WsRegistry.DeadExact`, `WsRegistry.StaysDead`, `WsRegistry.DeadExample`).
- A container removed while a tick waits for its listing is counted twice: as removed and as gone offline
  (`StateEngine.PlainBalanceExact`, `StateEngine.RemovalInTickCountsTwice`).
- A payload key `type`, `level` or `timestamp` overrides the column of the same name while the entry is in the
  buffer but not in the query of the table, and a payload key `id` can hide an entry behind another, so that a
  flush can change what a read shows (`LogReads.FlushInvisibleExact`, `LogReads.OverrideExample`).
- Clearing all data but keeping the configuration injects again; the old endpoint stays first in the file, and
  later synchronisations send its port (`Injection.KeptConfigSyncsOldPort`).
- A release of a port by somebody who did not allocate it can hand that port out twice
  (`PortAllocator.ForeignReleaseExact`, `PortAllocator.DoubledExact`).
- A recreation can reply that creating the container failed although the container is there: it was made and did
  not start (`ContainerConfig.RecreateOutcome`, `ContainerConfig.StartFailsExample`).
- The two port allocators do not see each other's reservations, so that both can hand out a port that Docker does
  not show yet (`PortAllocator.SharedExact`, `PortAllocator.SharedExample`); one allocator alone excludes that
  (`PortAllocator.AllocationsExclude`).
- Recreating with a malformed environment list deletes the container and keeps the ports allocated on the way
  (`ContainerConfig.InvalidEnvLosesContainer`, `ContainerConfig.InvalidEnvExample`).
- A restart policy "no", requested or kept, becomes "always" (`ContainerConfig.RequestHonoured`).
- A last line of the pull stream without a newline is never parsed (`PullStream.TailLostExact`).
- A full buffer left by a failed flush drops its oldest entry, which is lost unless an attempt had already written
  it (`OperationLog.LostExact`, `OperationLog.LossExample`).
- A negative limit, which the endpoint lets through, reads all messages but as many of the oldest
  (`MessageFeed.NewestExact`).
- Message ids that repeat make the cursor restart at their first occurrence (`MessageFeed.CursorExact`, `MessageFeed.CursorExample`).

## Model

| member | source | states |
|---|---|---|
| WsRegistry.Reachable | services/napcat_ws_service.py:187-309 | In every state that connections, events, responses, calls, time-outs, closes and cleanups can reach in any order: pending tables hold exactly the unfinished calls of open proxies, every completed future carries its own echo, a registered proxy is open with its connection, and "connected" means bound to an open socket of that name |
| WsRegistry.SettledOnce | services/napcat_ws_service.py:58-98 | Once a call has an outcome or its future is complete, it has the same one at every later moment of the run |
| WsRegistry.AnswerOrigin | services/napcat_ws_service.py:58-62 | A call that ends with an answer or refusal got it from one earlier response with its own echo, read on a connection of the name whose registered proxy made the call while the call was unfinished; it is an answer exactly if the status was ok |
| WsRegistry.DeliveredNext | services/napcat_ws_service.py:58-62 | A response read on a connection of the name whose registered proxy made the call completes the future of its echo, if that still waits, with exactly this response |
| WsRegistry.ResolvedExact | services/napcat_ws_service.py:58-62 | At every moment of every run the future of a call holds a response if and only if that response was delivered, while the call waited, at an earlier step |
| WsRegistry.SettledNext | services/napcat_ws_service.py:83-98 | One step ends an unsettled call with an outcome if and only if it is its failed send, its time-out, its abandonment, or its resumption, whose outcome is the answer or refusal in the future, or an abort if that was cancelled |
| WsRegistry.AwaitingNext | services/napcat_ws_service.py:83-98 | An unsettled call awaits its answer after a step if and only if the step sent it, or it awaited before and the step does not settle it |
| WsRegistry.AnsweredExact | services/napcat_ws_service.py:84-92 | At every moment of every run a call has ended with an answer, or a refusal, from a response if and only if that response was delivered while the call waited and the call was resumed after that; an answer if its status is ok, a refusal if not |
| WsRegistry.InvokedExact | services/napcat_ws_service.py:72-84 | A call is filed if and only if the name has a registered proxy; it is sending, its future waits, and its echo is in the pending table of that proxy |
| WsRegistry.PendingExact | services/napcat_ws_service.py:64-98 | At every moment a proxy's pending table is the set of its unsettled calls if it is open and empty if it is closed, and no unsettled call of a closed proxy is still waiting |
| WsRegistry.ServedExact | services/napcat_ws_service.py:283-309 | At every moment a proxy is registered if and only if it is not closed, and then its own socket is open |
| WsRegistry.ReplacedExact | services/napcat_ws_service.py:283-309 | One step takes a proxy out of service if and only if it is a new handshake of the name that is no probe, the close of the proxy's own socket or a cleanup of the name |
| WsRegistry.LatestServes | routers/ws_router.py:501-534 | From a handshake on, its proxy serves the name until one of those three happens, however many superseded and probe sockets of the name close |
| WsRegistry.ServingExact | services/napcat_ws_service.py:283-309 | At every moment of every run a name is served by a proxy on a socket if and only if a handshake of the name on that socket, no probe, registered it and no later such handshake, close of that socket or cleanup of the name has come since |
| WsRegistry.CancelExact | services/napcat_ws_service.py:64-70 | A waiting call is cancelled by a step if and only if that step ends its own proxy |
| WsRegistry.DisconnectExact | services/napcat_ws_service.py:203-222 | A connected entry stops being connected if and only if its bound socket closes or its name is cleaned up; any other closing socket, probe or superseded, leaves the whole entry unchanged |
| WsRegistry.DeadExact | services/napcat_ws_service.py:224-246 | Once the grace period of an entry is over, a step changes it if and only if it is a handshake with an account header, a closing socket of the name or a cleanup; events change nothing |
| WsRegistry.StaysDead | services/napcat_ws_service.py:224-246 | Over any run, a name whose grace period is over keeps its entry and stays unreported until a handshake with an account header, a closing socket of the name or a cleanup, whatever else connects and sends events |
| WsRegistry.DeadExample | routers/ws_router.py:515-528 | A bot that left 40 seconds ago connects without a header and sends an event: its socket is open, its proxy registered, and it is not reported connected |
| WsRegistry.Grace | services/napcat_ws_service.py:149-155 | A name that was bound to an open socket at some moment of the last 15 seconds, with no cleanup since, is reported connected |
| WsRegistry.AliveExact | services/napcat_ws_service.py:374-376 | At every moment of every run a name is reported connected if and only if it was bound to an open socket within the last 15 seconds, or a socket of the name closed within the last 15 seconds while the entry was bound to none, with no cleanup since |
| WsRegistry.StrayExample | services/napcat_ws_service.py:203-222 | A run in which a bot left 42 seconds ago, no moment of the last 15 seconds had it bound, and it is reported connected because a probe closed |
| WsRegistry.LoginExact | services/napcat_ws_service.py:272-277 | In every reachable state the login result is positive if and only if the entry is bound to a socket that is open, and then it is the account on record |
| WsRegistry.AccountExact | services/napcat_ws_service.py:187-246 | At every moment of every run the account on record for a name is the last one given to it, by a handshake with an account header or by an event on one of its connections while it had no entry or one still counted as connected, with no cleanup since |
| WsService.NapCatApiProxy.OnResponse | services/napcat_ws_service.py:58-62 | Completes the future under the response's echo if it is still waiting and changes no other future |
| WsService.NapCatApiProxy.Close | services/napcat_ws_service.py:64-70 | Cancels exactly the pending futures that are still waiting, empties the table and marks the proxy closed |
| WsService.NapCatWsService.OnConnect | services/napcat_ws_service.py:187-201 | Binds the name's entry to the socket as connected with that account, in place, all other entries unchanged |
| WsService.NapCatWsService.OnDisconnect | services/napcat_ws_service.py:203-222 | Unbinds and stamps the entry if it is bound to this socket or to none, and changes nothing otherwise |
| WsService.NapCatWsService.EnsureUin | services/napcat_ws_service.py:224-246 | Fills in a missing entry, renames a live one and leaves a dead one alone |
| WsService.NapCatWsService.RegisterProxy | services/napcat_ws_service.py:283-293 | The proxy objects and all futures are those of the machine after the old proxy is closed and a new one registered |
| WsService.NapCatWsService.UnregisterProxy | services/napcat_ws_service.py:295-309 | Closes and removes the name's proxy, with its futures cancelled, if and only if it belongs to that socket |
| WsService.NapCatWsService.StartCall | services/napcat_ws_service.py:72-88 | Makes a waiting future filed under the new echo in the name's open proxy, or refuses and changes nothing; the heap stays that of the machine |
| WsService.NapCatWsService.FinishCall | services/napcat_ws_service.py:89-98 | The end of a call, also on a proxy replaced meanwhile, leaves the heap that of the machine after the call settles |
| WsService.NapCatWsService.OnEcho | routers/ws_router.py:479-483 | A message with an echo reaches only the future of that echo in the proxy registered for the connection's name |
| WsService.NapCatWsService.Accepting | routers/ws_router.py:515-528 | The start of a connection handler moves the objects exactly by the machine's accept step: entry bound for a real header, old proxy closed and new one registered unless it is a probe |
| WsService.NapCatWsService.Closing | routers/ws_router.py:490-534 | The end of a connection handler moves the objects exactly by the machine's close step: entry first, then proxy, each only if bound to this socket |
| WsService.NapCatWsService.Cleanup | services/napcat_ws_service.py:463-480 | Removes the name's entry and closes its proxy, and nothing else, as the machine's cleanup step |
| MessageFeed.ReadOldestFirst | routers/ws_router.py:199-201 | Reading the newest 200 and reversing them gives the ring back in arrival order |
| MessageFeed.CursorExact | routers/ws_router.py:226-239 | The batch after a cursor is what follows a given position of its id if and only if that position is the first with that id |
| MessageFeed.CursorExample | routers/ws_router.py:228-237 | With the newest message repeating the id of the oldest, two messages that were sent are sent again |
| MessageFeed.FeedInOrder | routers/ws_router.py:199-248 | After every step of every run with distinct ids, what the subscriber was sent is in arrival order without repeats, and nothing sent is taken back |
| MessageFeed.SentUnlessEvicted | routers/ws_router.py:212-248 | After the first delivery at or after its arrival, a message has been sent if and only if it was still in the ring at that delivery |
| MessageFeed.CursorBeforeArrival | routers/ws_router.py:209-242 | Until that delivery the message is unsent and the cursor is not past it |
| MessageFeed.RingHoldsLast | services/napcat_ws_service.py:389-406 | At every moment the ring is the end of the arrivals, holding all that arrived since the last cleanup or since the start, but at most 200 |
| MessageFeed.NewestExact | services/napcat_ws_service.py:408-415 | A read with a limit of at least 0 returns the smaller of the limit and the ring length, with a negative one all but as many; the k-th message returned is the k-th from the end of the ring |
| MessageFeed.MessageBuffers.PushMessage | services/napcat_ws_service.py:389-406 | Appends to the name's ring, dropping its oldest message if it is full; other rings unchanged |
| MessageFeed.MessageBuffers.GetMessages | services/napcat_ws_service.py:408-415 | The newest messages of the name's ring, newest first, up to the limit |
| MessageFeed.MessageBuffers.NextBatch | routers/ws_router.py:226-239 | The loop over the read finds exactly the messages after the cursor, or all of them if its id is gone |
| PatchPush.DiffNoneExact | routers/ws_router.py:61-82 | A container diff is absent if and only if the two lists are the same map by name, a QR diff if and only if the maps are equal |
| PatchPush.ByNameExact | routers/ws_router.py:61-73 | The dictionary of a list has exactly the names listed, each with its last entry |
| PatchPush.ApplyListDiff | routers/ws_router.py:61-73 | Applying any diff of two lists to the first one's map gives the second one's map |
| PatchPush.ApplyQrDiff | routers/ws_router.py:76-82 | Applying the QR diff of two maps to the first gives the second |
| PatchPush.ReplicaExact | routers/ws_router.py:306-353 | A client that takes the full message and applies every patch holds the server's last container map and QR map after every round, whatever lists the rounds show; a round sends nothing if and only if neither map changed |
| PatchPush.PatchRound | routers/ws_router.py:336-353 | One round after the first brings an up-to-date replica up to date again |
| PatchPush.PublicChannel.DiffContainers | routers/ws_router.py:61-73 | Computes a diff with exactly the added and changed records, the removed names, each once, or nothing |
| PatchPush.PublicChannel.Round | routers/ws_router.py:326-353 | Sends the full data first and then the diff to the previous round, and remembers what it compared |
| OperationLog.FlushConserves | services/operation_logger.py:69-102 | A flush that succeeds, fails part-way or fails finally keeps the set of entries in buffer and table together, stores no id twice, and either empties the buffer or leaves it as it was and counts one failure |
| OperationLog.FlushExact | services/operation_logger.py:69-102 | A flush leaves the buffer as it was and counts one failure if and only if both its attempts raise at a statement they reach; otherwise it empties the buffer and counts none |
| OperationLog.Conserved | services/operation_logger.py:19-43 | In every run the buffer is the end of the log history, every older entry is in the table or was evicted, no id is stored twice, and evictions plus a full buffer never outnumber final flush failures |
| OperationLog.NothingLostUnseen | services/operation_logger.py:69-102 | Every entry ever logged is in the buffer, in the table or evicted; with no final failure none is evicted |
| OperationLog.AppendPlaces | services/operation_logger.py:24-43 | An append changes the evicted entries if and only if the buffer is full, and then by its oldest entry; the placement of all entries is kept |
| OperationLog.LostExact | services/operation_logger.py:69-102 | At every moment of every run, a logged entry is in neither buffer nor table if and only if it was evicted and, in every flush that had it in the buffer, both attempts failed at or before its position |
| OperationLog.LossExample | services/operation_logger.py:19-43 | A run of eleven entries in which the database refuses everything and the first entry ends up in neither buffer nor table |
| LogReads.ReadExact | services/operation_logger.py:159-187 | In a transparent state, a read with type, level and time filters that answers shows exactly the matching entries of buffer and table, the numeric time stamps falling from each item to every later one, no flattened id twice where flattened ids differ; it can only raise over a matching entry with a nested id or a time stamp that is no number |
| LogReads.AnswerOrdered | services/operation_logger.py:184-187 | In every state, of two items of an answer the earlier has a time stamp at least as large: as a number, or as a string in dictionary order |
| LogReads.StringAtLeastExact | services/operation_logger.py:184-187 | The comparison of string time stamps is the dictionary order: at the first difference the larger code point, or one goes on where the other ends |
| LogReads.RaisesExact | services/operation_logger.py:159-187 | In every state a read raises if and only if a time bound is given and a buffered entry of the asked type and level has no numeric time stamp, or an item of the merged list has a nested id, or two of its time stamps are neither both numbers nor both strings |
| LogReads.FlattenExact | services/operation_logger.py:259-274 | Key by key what a reader sees of an entry: the payload value where there is one, else the column; the operator name where the operator is missing; no other key |
| LogReads.OperatorShown | services/operation_logger.py:24-43 | What an entry is logged with as operator name, id and address is what a read shows, and nothing where the payload has none |
| LogReads.SameRead | services/operation_logger.py:159-187 | Two transparent states with the same entries, however divided between buffer and table, give the same answer: the same multiset of items, or both raise |
| LogReads.FlushInvisible | services/operation_logger.py:69-102 | In a transparent state of a run no flush, whatever its faults, changes the answer to any type, level and time filter |
| LogReads.FlushInvisibleExact | services/operation_logger.py:159-187 | At every moment of every run, where stored rows have numeric time stamps and no id is nested: all flushes with all faults leave all answers to all such filters unchanged if and only if every buffered entry not yet written keeps its type, level and time stamp under its payload and shares its flattened id with no other entry of buffer and table, and every buffered entry already written has a row with its flattened id that matches whatever its flattened form matches |
| LogReads.PlainTransparent | services/operation_logger.py:259-274 | As long as no logged payload has a key id, type, level or timestamp, every state of a run is transparent for the program's own flattening, its reads never raise, and all flattened ids differ |
| LogReads.PlainReads | services/operation_logger.py:69-102 | In such a run, at every moment, no flush with any faults changes any answer, and every read answers with exactly the entries of buffer and table that have the asked type and level and a time stamp within the inclusive bounds, none twice, the time stamp of each item at least that of every later one |
| LogReads.RaisingHides | services/operation_logger.py:184-186 | A state that is not transparent, with nested ids in the table, in which no flush is seen by any filter because every read that could tell raises before and after |
| LogReads.RaisingRun | services/operation_logger.py:24-43 | That state is reached by logging two entries, flushing and logging a third |
| LogReads.OverrideExample | services/operation_logger.py:259-274 | A run with two buffered entries whose payloads carry the same id: the unfiltered read shows both, and one of them after a flush that writes only the first |
| LogReads.PagesCover | services/operation_logger.py:138-149 | The advertised number of pages, one after the other, are the whole read |
| LogReads.PageExact | services/operation_logger.py:138-149 | Item i of page p is item (p - 1) * limit + i of the whole read, for every i below the limit that it has; a page is advertised if and only if it is not empty |
| LogReads.OperationLogger.LogEntry | services/operation_logger.py:24-43 | Appends to the bounded buffer, evicting its oldest entry if full, and flushes when it is full |
| LogReads.OperationLogger.FlushBuffer | services/operation_logger.py:69-102 | Two attempts over the snapshot, then the snapshot goes back in order and the failure is counted |
| LogReads.OperationLogger.GetCombinedItems | services/operation_logger.py:159-187 | Query result first, then the filtered buffer items with new ids, sorted newest first and stable; nothing where a comparison or a hash raises |
| LogReads.OperationLogger.GetPage | services/operation_logger.py:112-157 | Normalises limit, page and bounds, swaps crossed bounds, returns that slice of the read with total and page count, or nothing where the read raises |
| Instances.ReflectExact | services/container_state.py:206-230 | After a listing with unique names the table has exactly the listed names with the listed data; a running known instance keeps its login state, any other has none |
| Instances.RefreshExact | services/container_state.py:206-230 | For every listing, repeated names included: a known instance keeps all its runtime data if and only if no entry of its name says that it does not run, otherwise it loses login and heartbeat and keeps its account; a new one has none |
| Instances.LoginSets | services/container_instance.py:123-134 | A login update sets the login state and time; without a stage the stage follows the login state; without an account a logout to the waiting stage forgets the account and anything else keeps it; nothing else changes |
| Instances.InstanceSubsystem.Upsert | services/instance_subsystem.py:34-47 | Refreshes an existing instance in place or adds a new one, all others unchanged |
| Instances.InstanceSubsystem.Remove | services/instance_subsystem.py:49-51 | Removes exactly that name |
| Instances.InstanceSubsystem.Cleanup | services/instance_subsystem.py:53-58 | Keeps exactly the active names |
| Instances.InstanceSubsystem.Reflect | services/container_state.py:206-230 | The upsert loop, the clearing of stopped instances and the final cleanup leave the reflection of the listing |
| Instances.ContainerInstance.UpdateLogin | services/container_instance.py:123-134 | Sets the login fields; the account number is kept on an empty one unless the instance goes back to waiting |
| Instances.ContainerInstance.ClearRuntime | services/container_instance.py:160-180 | Clears heartbeat and login state and leaves identity and account number |
| StateEngine.NoticesBalance | services/container_state.py:176-260 | Between any two moments after the first effective tick, per name and node: online notices minus offline notices, minus removals while running outside a listing in progress, minus skipped ticks that forget it, is exactly the change in whether the engine takes it as running |
| StateEngine.PlainBalanceExact | services/container_state.py:176-260 | Between ticks, online minus offline minus all removals while running equals running now minus running then if and only if the removals that fell into a listing in progress are as many as the skipped ticks that forgot the container |
| StateEngine.RemovalInTickCountsTwice | services/container_state.py:176-245 | A running container removed while a tick waits for a listing without it is counted as removed and again as offline |
| StateEngine.NoticesAlternate | services/container_state.py:232-256 | Between two online notices of a name and node that is not removed lies an offline notice, and the other way round |
| StateEngine.FirstTickSilent | services/container_state.py:258-260 | Up to and including the first effective tick no notice is raised and there is nothing to go offline |
| StateEngine.RunsAsListed | services/container_state.py:206-237 | After a listing a name and node count as running if and only if the listing has them running |
| StateEngine.DetectExact | services/container_state.py:287-311 | The heartbeat loop logs out exactly the local running instances that are logged in and silent too long, each once, and changes nothing else |
| StateEngine.DueInOrder | services/container_state.py:291-317 | The names due a notice stand in the order of the listing |
| StateEngine.RunningLocalExact | services/container_state.py:206-230 | The heartbeat check covers a name if and only if some entry of the listing has it running on the local node |
| StateEngine.LocalOrigin | services/container_state.py:176-291 | The names a check covers are those of the last listing that arrived before it |
| StateEngine.LoggedInExact | services/docker_login.py:105-145 | At every moment of every run an instance is logged in with an account if and only if a login event gave it that account and nothing has ended that since: another login, a logout event, a check that found it silent for over 90 seconds, its removal, or a refresh that does not list it as running |
| StateEngine.AccountKept | services/container_instance.py:123-180 | As long as an instance is there it keeps the account of its last login event, through logouts, time-outs and stops |
| StateEngine.OnlineNext | services/bot_heartbeat.py:115-140 | After a step a bot is shown online if and only if the step is a heartbeat that says so, or it was and the step is no heartbeat, lost link, removal or refresh that drops it |
| StateEngine.LastBeatExact | services/bot_heartbeat.py:115-140 | At every moment of every run the heartbeat time on record is that of the last heartbeat since which no other arrived, its link was not lost and no removal or refresh dropped the instance |
| StateEngine.SilenceExact | services/container_state.py:287-311 | At the check of every tick of every run a name becomes due a notice if and only if its listing has it running on the local node, a login of it has not ended, and its last heartbeat on record is over 90 seconds old |
| StateEngine.EveryDueTold | services/container_state.py:313-325 | Every name that is due has its turn before its tick ends, and at its turn the notice is sent if and only if the instance is still there and still logged out |
| StateEngine.LoginBetweenNotices | services/container_state.py:287-325 | Between two heartbeat time-out notices for an instance there is a login event for it, whatever else interleaves |
| StateEngine.NoticeIsForSilence | services/container_state.py:287-325 | A heartbeat time-out notice comes from a check at which the instance was logged in and no heartbeat of it had arrived for 90 seconds or less |
| StateEngine.IntervalExact | services/container_state.py:139-151 | After n idle rounds since the last wake-up the interval is 3 + 3n seconds, at most 30 |
| StateEngine.ContainerStateEngine.ListingPart | services/container_state.py:176-260 | The in-place first half of a tick makes the machine's listing step with its notices |
| StateEngine.ContainerStateEngine.HeartbeatPart | services/container_state.py:284-311 | The loop over local running names makes the specified time-outs and returns who is due a notice |
| StateEngine.ContainerStateEngine.AdaptInterval | services/container_state.py:139-151 | Back to 3 seconds on a wake-up, 3 more up to 30 otherwise |
| Sessions.ValidatedIsFresh | middleware/auth.py:54-96 | In any run of logins, edits, deletions, logouts, cleanups and validations, a session that validates is at most 7 days old and shows the name and permission the users table held at some moment of the last 300 seconds |
| Sessions.RevokedWithinFiveMinutes | middleware/auth.py:67-89 | A name and permission that a user has not held for more than 300 seconds is no longer returned |
| Sessions.DeletedUserLosesAccess | middleware/auth.py:70-75 | No session of a user deleted more than 300 seconds ago validates |
| Sessions.ValidateExact | middleware/auth.py:54-96 | A token validates if and only if it is stored, at most 604800 seconds old, and active within the last 300 seconds, without a user id, or of a user in the table; the name and permission returned are the table's if they were stale and unread for 300 seconds, else the stored ones; the activity time moves if they were or after 600 seconds; what is returned is stored, and what fails is deleted |
| Sessions.EndsExact | middleware/auth.py:33-75 | A step ends a stored session if and only if it is its logout, the removal of its user's tokens, a sweep or validation of it after 7 days, or a validation of it after 300 idle seconds with its user gone |
| Sessions.StoredExact | middleware/auth.py:20-96 | At every moment of every run a token is stored if and only if a login made it and no step since has ended it; it has that login's user and time |
| Sessions.AnswersExact | middleware/auth.py:54-96 | Over every run a validation answers if and only if a login made the session and nothing has ended it, this validation included; the answer is that user's session |
| Sessions.GoodForAWeek | middleware/auth.py:54-96 | A session validates at every moment of the 7 days after its login as long as its user is there, it was not logged out and the user's tokens were not removed |
| Sessions.SessionsKeepTheirOwner | middleware/auth.py:20-96 | No step but its own creation changes whose session a token is or when it was created |
| Sessions.CleanupUnseen | middleware/auth.py:45-51 | Removing expired tokens changes no later validation |
| Sessions.SessionStore.ValidateToken | middleware/auth.py:54-96 | Deletes, refreshes or rewrites the session row and answers as specified |
| Sessions.SessionStore.CreateToken | middleware/auth.py:20-30 | Adds a session with the user's current name and permission, created and active now |
| LoginLockout.AtMostSixFailures | routers/auth_router.py:37-80 | In any 1800 seconds of any run with no success from an address, at most 6 of its password checks fail |
| LoginLockout.SixIsReached | services/user_manager.py:198-224 | Six failures in a row do happen: the bound is exact |
| LoginLockout.LockedOut | services/user_manager.py:198-209 | More than 5 recorded failures refuse every attempt, good or bad, until 1800 seconds after the last one |
| LoginLockout.RefusedOnlyFor | services/user_manager.py:198-224 | Whenever an attempt of a run is refused, at least six checks of its address failed since with no success in between, the last of them at most 1800 seconds ago |
| LoginLockout.LoginExact | routers/auth_router.py:37-80 | An attempt is refused if and only if the address has more than 5 failures on record and the last is at most 1800 seconds old; otherwise it is authenticated if and only if its credentials are right; a success leaves no record, a failure one of now, a refusal the record as it was |
| LoginLockout.LoginRow | services/user_manager.py:198-228 | A failed check adds one to the record of its address or starts it again after 1800 seconds, a success removes it, and no other attempt touches it |
| LoginLockout.RefusedExact | routers/auth_router.py:37-80 | Over every run: an attempt is refused if and only if six or more checks of its address failed with no success in between, each at most 1800 seconds after one before it and the last at most 1800 seconds before the attempt; otherwise right credentials are accepted |
| LoginLockout.OthersUntouched | services/user_manager.py:198-228 | An attempt changes no other address's record |
| LoginLockout.UserManager.ApiLogin | routers/auth_router.py:37-80 | Ban check, password check, then clearing or recording, in that order, with the resulting table |
| RateLimiting.CleanupInvisible | middleware/rate_limiter.py:18-44 | With a clock that never goes back, the limiter that forgets expired records answers every sequence of checks and remaining-time queries like one that never forgets |
| RateLimiting.CoolDown | middleware/rate_limiter.py:18-27 | After an allowed call with limit s, no check of the same key is allowed for s seconds, across any other calls |
| RateLimiting.AnswersExact | middleware/rate_limiter.py:18-44 | For a new limiter and any calls: a check is refused, and a remaining time above 0 reported, if and only if an allowed check of the same key lies less than its seconds back, and the remaining time is what is left of those |
| RateLimiting.CleanupExact | middleware/rate_limiter.py:36-44 | A cleanup at least 60 seconds after the last leaves exactly the records of keys that still have to wait; any other changes nothing |
| RateLimiting.RateLimiter.Check | middleware/rate_limiter.py:18-27 | Cleans up at most every 60 seconds, then admits and records or refuses |
| RateLimiting.RateLimiter.MaybeCleanup | middleware/rate_limiter.py:36-44 | The deletion loop removes exactly the expired records, at most every 60 seconds |
| PortAllocator.FindAvailableExact | services/docker_async.py:476-483 | The scan ends; it returns the least port at or above the base that is not used, and fails if and only if the base and all of base..65535 are used |
| PortAllocator.ScanPorts | services/docker_manager.py:456-463 | The counting loop computes that port or fails |
| PortAllocator.AllocationsExclude | services/docker_async.py:485-504 | For one allocator, with the Docker snapshot and the reading of reservations as separate steps, as long as nobody releases another's port: no two outstanding reservations share a port, and each allocation is the least port outside snapshot and reservations |
| PortAllocator.ReservedExact | services/docker_async.py:485-504 | From no reservations on, as long as nobody releases another's port, the reservations are at every moment exactly the ports that calls still hold |
| PortAllocator.ForeignReleaseExact | services/docker_async.py:501-504 | Releasing a port without owning it lets the next allocation at that port collide if and only if somebody holds it |
| PortAllocator.DoubledExact | services/docker_async.py:476-504 | Over every run of one allocator, releases of foreign ports included, two outstanding reservations share a port if and only if one of them was the first gap its scan saw while the other held that port, and both have been outstanding since |
| PortAllocator.HoldsExact | services/docker_async.py:485-504 | A reservation holds a port if and only if it took the port as the first gap of its scan and has been outstanding since |
| PortAllocator.SharedExact | services/docker_async.py:485-499 | Over every interleaving of the two allocators with their separate reservations, two outstanding reservations share a port if and only if one of them was the first gap its own manager saw while the other manager held that port, and both have been outstanding since: nothing but a release ends it |
| PortAllocator.SharedExample | services/docker_manager.py:465-472 | A four-step run in which both managers hand out the same port |
| PortAllocator.DockerManager.AllocatePort | services/docker_manager.py:465-472 | Reserves the port it returns and changes nothing when it fails |
| PortAllocator.AsyncDockerManager.AllocatePort | services/docker_async.py:485-499 | Stores the port it returns with its time and changes nothing when it fails |
| Injection.RestartBound | services/docker_lifecycle.py:58-199 | In any run of logins, logouts, container changes, manager restarts and clears, the restarts scheduled for a name and account never outnumber, by more than one, the clears of that name and deletions of the account's file or marker |
| Injection.AtMostOneRestart | services/docker_lifecycle.py:58-199 | Between clears and deletions of the file or marker at most one restart is scheduled for a name and account, and none if it was already injected |
| Injection.RestartExact | services/docker_lifecycle.py:58-199 | A login restarts the container if and only if the account is not empty and not logged in here already, marker and file are not both there, an address is available (a port with BotShepherd on, else the fixed address), and neither file fails to be written; then the file names the address behind its old entries and the marker is there |
| Injection.SyncExact | services/docker_lifecycle.py:76-131 | A login sends a synchronisation if and only if BotShepherd is on, the account arrives, and it is the first "botshepherd" address of an injected file with its port, or for any other account the newly chosen one, also where writing it failed |
| Injection.MarkerExact | services/docker_lifecycle.py:123-137 | After a login the marker is there if and only if the container is restarted for it, or it was there and not stale, or could not be deleted |
| Injection.OnlyAdds | services/docker_lifecycle.py:58-199 | A login takes no entry from any file and touches no other account's file or marker |
| Injection.FirstBsExact | services/docker_lifecycle.py:42-56 | The address read back is that of the first entry called "botshepherd" |
| Injection.InjectedOnce | services/docker_lifecycle.py:58-199 | Between clears of every run an account is injected exactly once if some login there finds it uninjected with nothing missing or failing, and otherwise never |
| Injection.LoginNext | services/docker_lifecycle.py:58-78 | The next login of an account counts as a repetition if and only if its instance saw that login and since then no other login, loss of the login, removal, full clear or restart of the manager |
| Injection.ClearExact | routers/container_runtime/common.py:124-161 | A clear takes exactly the container's configuration files, if asked for all data or the configuration and not to keep it, and its markers, if asked for all data |
| Injection.LaterSyncs | services/docker_lifecycle.py:76-131 | After an injection every later synchronisation, until a clear, sends the first "botshepherd" address of the file and its port; starting without one it is what the injection chose |
| Injection.KeptConfigSyncsOldPort | routers/container_runtime/common.py:124-161 | Clearing everything but the configuration makes the next login inject a new port and the one after it send the old port |
| Injection.LifecycleManager.OnLoginDetected | services/docker_lifecycle.py:58-199 | Both guards, the port, the config file, the marker, the restart and the synchronisation as specified; the port is released again on success and failure |
| Injection.LifecycleManager.GenerateConfig | routers/container_crud_router.py:113-141 | Appends a client with that address unless one has it already |
| Injection.LifecycleManager.ReadInjectedBsUrl | services/docker_lifecycle.py:42-56 | The address of the first "botshepherd" client of the file |
| Endpoints.MergeShape | services/docker_lifecycle.py:276-284 | Existing endpoints stay contiguous and in order; what is put around them is exactly the missing manager endpoint in front and the missing configured targets behind, each once |
| Endpoints.MergeCounts | services/docker_lifecycle.py:276-284 | Every endpoint occurs as often as before, or once if it was missing and wanted |
| Endpoints.MergeIdempotent | services/docker_lifecycle.py:276-284 | Merging a second time changes nothing |
| Endpoints.LookupExact | services/botshepherd.py:717-720 | An alias means the first entry of that name, and none if and only if no entry has it |
| Endpoints.RepliesExact | services/botshepherd.py:704-857 | Each reply of injection and removal has its exact cause; only a success changes anything, adding the endpoint at the end or taking out its first occurrence |
| Endpoints.InjectThenRemove | services/botshepherd.py:704-740 | Injecting an absent endpoint by alias and removing it again restores every connection |
| Endpoints.RemovalKeepsUnknown | services/botshepherd.py:799-857 | Removal keeps, in order and with repetitions, every endpoint outside the known set, and takes away at most one occurrence of the named one from the named connection |
| Endpoints.BotShepherdManager.MergeTargets | services/docker_lifecycle.py:276-284 | The loop computes the merge |
| Endpoints.BotShepherdManager.RemoveEndpointFromBs | services/botshepherd.py:811-857 | Refuses unknown endpoints and connections, else removes the first occurrence |
| Endpoints.BotShepherdManager.InjectAlias | services/botshepherd.py:704-740 | Refuses unknown aliases, connections and endpoints already there, else appends |
| ContainerConfig.ReadBack | services/docker_async.py:310-341 | Reading the config that was built gives the same image, ports, memory, policy, network and environment |
| ContainerConfig.ReadBackFields | routers/container_runtime/common.py:179-213 | The same for every environment, leaving the environment aside |
| ContainerConfig.BuildExact | services/docker_async.py:310-341 | What the engine is asked for: exactly 6099/tcp, 3000/tcp and 3001/tcp exposed and each bound to its own host port, memory in bytes, one KEY=VALUE line per variable, no network mode for "bridge" or an empty one, the rest as given |
| ContainerConfig.ReadsExact | routers/container_runtime/common.py:179-213 | Of any container: each host port is read from the first entry of its own binding if that is a numeral, and memory in whole megabytes, rounded down |
| ContainerConfig.EnvRoundTripExact | routers/container_runtime/common.py:198-202 | An environment is read back as it was written if and only if no key contains "=" |
| ContainerConfig.RecreateIdempotent | routers/container_runtime/data_recreate.py:160-250 | After a successful recreation with an empty request, a second one builds the same configuration whatever ports are in use meanwhile |
| ContainerConfig.RecreateReproduces | routers/container_runtime/data_recreate.py:193-248 | Recreating a container that this code built, with an empty request, gives exactly its configuration |
| ContainerConfig.RequestHonoured | routers/container_runtime/data_recreate.py:193-248 | After a successful recreation every field of the request, or of the old container where the request leaves it out, is read back from the new one: ports that are positive, and otherwise the least one from the base that is neither used nor reserved nor just allocated; memory if and only if it is not negative; the network if and only if it is not "bridge"; the restart policy if and only if it is neither empty nor "no", which become "always"; for every environment key the last value given, or the old one, with ACCOUNT added; the mounts are those of the settings |
| ContainerConfig.RecreateOutcome | routers/container_runtime/data_recreate.py:160-257 | Success, failed deletion and failed creation each have their exact cause, the deletion failing also where there is no container; afterwards the container exists if and only if it was there and could not be deleted, or ports and environment were settled and the engine made the new one, started or not; then exactly the three ports are no longer reserved; whether it started changes no container and no reservation, and other containers are untouched |
| ContainerConfig.StartFailsExample | services/docker_async.py:344-367 | A new container that does not start: the reply is a failed creation and the container is there |
| ContainerConfig.InvalidEnvLosesContainer | routers/container_runtime/data_recreate.py:165-217 | The reply is a rejected environment if and only if the container was there and deleted, all three ports were found and some requested item is malformed; then the container is gone and exactly the ports that had to be allocated stay reserved |
| ContainerConfig.InvalidEnvExample | routers/container_runtime/data_recreate.py:193-217 | One request with an item that lacks its "=": the container is deleted and three ports stay reserved |
| ContainerConfig.ParseEnvExact | routers/container_runtime/common.py:164-176 | Parsing fails if and only if some item has no "=" or only white space before it |
| ContainerConfig.StripExact | routers/container_runtime/common.py:167-176 | A key is the text before the "=" without the white space around it, and nothing else is taken off |
| ContainerConfig.SnapshotEnv | routers/container_runtime/common.py:198-202 | The loop reads the environment lines into the dictionary, later ones overwriting |
| ContainerConfig.ParseEnvGives | routers/container_runtime/common.py:167-176 | A list without malformed items gives every key the value after the first "=" of the last item that names it; keys are distinct and contain no "=" |
| ContainerConfig.ParseEnvList | routers/container_runtime/common.py:164-176 | The loop builds the dictionary or rejects the list |
| ContainerConfig.AsyncDockerManager.ApiRecreate | routers/container_runtime/data_recreate.py:160-257 | The handler's sequence of deleting, allocating, choosing, creating and releasing, with every early return |
| Decimal.ParsePrint | services/docker_async.py:321-327 | A number printed in decimal is all digits and is read back as the same number |
| PullStream.LinesCharacterised | frontend/src/pages/ImageManager.tsx:143-144 | Splitting gives the one list of newline-free lines and the one newline-free rest that together are the text |
| PullStream.Pull | frontend/src/pages/ImageManager.tsx:135-148 | For every way of cutting the stream into chunks, the parser gets exactly the non-blank newline-terminated lines of the whole text, in order, up to the first it rejects, and the verdict is theirs |
| PullStream.Feed | frontend/src/pages/ImageManager.tsx:146-153 | The inner loop hands over the non-blank lines up to the first rejected one and folds the verdict |
| PullStream.VerdictExact | frontend/src/pages/ImageManager.tsx:131-189 | The verdict is missing if and only if some line is rejected, and positive if and only if the last "done" event says so, or there is none, and no error came after it |
| PullStream.HandedExact | frontend/src/pages/ImageManager.tsx:146-153 | The parser sees every line up to and including the first that it rejects, and no more |
| PullStream.TailLostExact | frontend/src/pages/ImageManager.tsx:138-148 | The parser gets all non-blank pieces of the text, the last one included, if and only if what follows the last newline is blank or an earlier line was rejected |
| PullStream.UnterminatedLineLost | frontend/src/pages/ImageManager.tsx:138-145 | Whatever follows the last newline changes no line handed to the parser |

## Left out

- Docker, aiohttp, SMTP, webhooks and subprocesses: foreign I/O; their results and failures are parameters of the steps.
- SQLite itself: tables are maps and sequences; `OperationLog` has a failure at any row of a write; committing does nothing in the source.
- Connection limits of the WebSocket manager and the per-address cap: check and add are not one step in the source.
- Promptness of the message feed: `wait_for_message` clears its event on entry, so only safety is claimed.
- The endpoint `/ws/onebot/v11/ws` without a name: it touches neither registry nor proxies.
- Aliasing of registry entries: `get_entry` hands out the live object; the table here holds entry values that are replaced field by field.
- Registry fields nickname, connect time and last seen, and the send-time limit of 5 s: a send can fail at any moment.
- Own messages that `send_message` adds to the ring: they are pushes like any other.
- LogReads.FlushInvisibleExact: says when unchanged answers force the condition only where stored rows have numeric
  time stamps and ids can be hashed, because elsewhere raising reads hide flushes (`LogReads.RaisingHides`);
  that the condition is enough holds everywhere (`LogReads.FlushInvisible`).
- LogReads.OperationLogger.GetCombinedItems: lists as time stamps, which Python compares element by element, raise
  here like dictionaries.
- Truth values and fractions in log payloads: the former are 0 and 1, the latter are not modelled.
- The character sets that JavaScript and Python take as white space: given as definitions.
- The login-lost notice of a plugin logout: the router sends it, not the engine, on every such message.
- The operator filter of the log: `LIKE` and the lower-case substring test differ, so it stays empty.
- Interleaving of threads in the operation log: the logger is modelled for one thread.
- Wall-clock strings, UUIDs, password hashing and UTF-8 decoding: given values; tokens, echoes and log ids are new.
- The column `first_fail` of the login failures: nothing reads it.
- QR states inside the engine tick, statistics, port resolution and `bot_online` in login events: no notice depends on them.
- Container names shared by two nodes: the table is keyed by name, and names are taken as unique in a listing.
- Two login handlers for the same bot running at once: `Injection` runs a handler as one step.
- Write failures after the marker of an injection and the automatic group notices: they change no modelled state.
- Target "nc" of `inject_by_alias`: it edits a file as `GenerateConfig` does.
- Names, descriptions and flags of a synchronised connection: only its endpoint list is merged.
- The other queries on sessions and users, roles and instance permissions: thin wrappers over SQL.
- Clearing of data inside recreation (`clean_data`): file deletion, no effect on the built configuration.
- Exceptions other than an error of the Docker engine in recreation, such as a lost connection: they escape the
  handler, which then releases no port.
- Stale reservations removed at start-up: nothing is outstanding then.
- Paging of the instance query: a page switch is any change of the list in `PatchPush.ReplicaExact`.
- React rendering, translations, file manager, backups, metrics and logging: plumbing with easy claims only.
