# Verified models of the agent host

Dafny models of the parts of the repository whose behaviour spans many steps or several functions, with
proofs of what they promise. `dafny verify dfyconfig.toml` checks everything.

Each component follows the same plan. A specification states what one uninterrupted step does to the state,
as a function on values. A class or method with the program's own fields and loops is proved to do exactly
that. The main results are lemmas over every run of steps, over every input, or between two functions.

| files | component |
|---|---|
| `ContainerRunner.dfy`, `ContainerRestart.dfy` | waking, spawning, killing and restarting one container per session |
| `Delivery.dfy` | two pollers draining the outbound queues, with bounded retries |
| `HostSweep.dfy` | stuck and crashed containers, and the retry schedule of their messages |
| `StateStore.dfy`, `StateStoreLaws.dfy`, `StateStoreLists.dfy`, `StateAdapter.dfy` | the chat state adapter: keys with expiry, locks, lists, queues |
| `FourBytes.dfy`, `Crc32.dfy`, `Png.dfy` | the CRC and the PNG writer, with a reader |
| `Utf8.dfy`, `StatusBlocks.dfy`, `StatusRoundTrip.dfy` | the status-block printer, the streaming parser, and the bytes between them |
| `Sessions.dfy`, `Router.dfy`, `RouterLaws.dfy` | session resolution, engagement, the gate and the fan-out |
| `CircuitBreaker.dfy` | the startup backoff |
| `ClaudeMd.dfy`, `ClaudeMdLaws.dfy`, `ClaudeMdRuns.dfy`, `ClaudeMdFragments.dfy`, `GroupComposer.dfy` | composing `CLAUDE.md`, its fragments, and the cutover |
| `EnvFile.dfy`, `EnvMerge.dfy`, `SetEnv.dfy`, `SetEnvLaws.dfy` | reading, merging and updating `.env` |
| `Text.dfy`, `Options.dfy`, `Sets.dfy` | what the others share |

## Conventions

- Concurrency. The host is one event loop, so code between two `await`s runs without interruption. The runner
  and the delivery drain are cut there; a run is any sequence of such blocks and of outside events, and the
  theorems hold for all of them. The exit of a container is an event of the runtime adapter, which the loop
  takes up only when no settled promise has a continuation left: the code from the answer of `runtime.spawn` to
  the deletion of the wake promise is therefore one block. The route of a message is cut at the `await`s of the
  gate and of each delivery, where any session may be resolved, closed or deleted; the sweep of a session at the
  `await` of its wake, where messages arrive and change; `enqueue` between the append and the count.
- Times are integers in milliseconds. SQLite's `datetime('now')` is rounded down to a second. A clock may jump
  unless a contract says otherwise. An operation reads the clock once, except `get`, whose cleanup may read it
  earlier than its test.
- The first sweep of a process comes at once and each later one an interval after the end of the one before
  (`src/adapters/scheduler/local.ts:42-86`); only sweeps reset messages.
- Database writes and the exit handler succeed. A failed `runtime.spawn` leaves no container. Message ids are
  unique over all sessions. Due messages are read once per drain, each row once.
- An absent row, `null` and `undefined` are `None`. The program's truth tests, which take zero and the empty
  string for absent, are written out where they matter.
- Text is a sequence of characters. File names sort by character; this equals the host's order by UTF-16 unit
  except between characters beyond U+FFFF and those from U+E000 to U+FFFF.

## Where the code differs from what is said about it

- A failed message is not final. The next sweep turns an acknowledgement that its container wrote late into
  `completed` (`src/db/session-db.ts:170-183`). No reset revives it (`HostSweep.FailedIsFinalIffNeverAcknowledged`).
- A restart does not always wake a fresh container (`src/container-restart.ts:1-6`): it does exactly when the
  session row still exists at the exit (`ContainerRunner.RestartRespawnsIffSessionExists`). A session that is
  cleaned up in between stays down (`ContainerRunner.RestartOfDeletedSession`).
- A container woken in a sweep can be killed in the same pass because of an old claim; the next pass repeats it
  exactly if that claim could not be deleted (`HostSweep.FreshContainerKilledIffOldClaim`,
  `HostSweep.KillRepeatsIff`).
- The drop reason `no_agent_engaged_after_gate` and its warning (`src/router.ts:498-513`) cannot occur, because
  deliveries skipped for their provider are counted. The messages meant by it are lost without a record; this
  happens exactly in the case of `RouterLaws.LostUnrecordedIff`.
- A message that is rescheduled can be given up before the 155 seconds of its delays, but at one sweep a minute only
  with three restarts of the process, each of which sweeps at once (`HostSweep.EarlyGiveUpIff`,
  `HostSweep.EarlyGiveUpTakesThreeRestarts`).
- The cleanup inside `get` is visible to lists and locks: an append after it trims less if expired rows were the
  last ones (`StateStoreLists.CleanupBeforeAppendIff`, `StateStoreLists.CleanupBeforeRunIff`), and a lapsed lock can no longer be extended
  (`StateStoreLaws.CleanupBeforeExtendIff`).
- A thread named by the empty string is looked up as no thread but stored as "", so that each message may get a
  new session (`Sessions.DuplicatesIff`, `Sessions.EmptyThreadDuplicates`).
- Each buffer of a step's output is decoded by itself, so that a character cut in two is lost
  (`StatusRoundTrip.BuffersRoundTripIff`).
- A field key such as `=== END ===` is printed as a line that the parser takes for a marker
  (`StatusRoundTrip.MarkerLikeKeyIsLost`).
- An expiry of exactly zero counts as none for `setIfNotExists` (`StateStoreLaws.SetIfNotExistsIsRightIff`). A
  queue size of zero means unbounded, and a negative one empties the queue.
- An agent-shared request moves to a newer session of the agent, whichever chat that was made for
  (`Sessions.AgentSharedIsStableIff`).
- `set-env` writes the new value to the first matching line while the reader takes the last, and it lets `$`
  patterns in the value expand (`SetEnvLaws.DuplicateHidesNewValue`, `SetEnvLaws.PatternIsExpanded`). Which
  files and which values are safe is said exactly by `SetEnvLaws.SetThenReadIff` and
  `SetEnvLaws.ReplacedIsReadBackIffPlain`.

## Model

| member | source | states |
|---|---|---|
| ContainerRunner.RunKeepsInv | src/container-runner.ts:62-115 | Every interleaving of wakes, launches, failures, registrations, kills, exits, callbacks and changes of the session rows keeps each container either launching, recorded with its exit handler first in line, or exited and older than whatever its session has now. |
| ContainerRunner.AtMostOneContainer | src/container-runner.ts:94-115 | In every run a session has at most one live container or spawn in preparation, never both. |
| ContainerRunner.LaunchFindsSessionFree | src/container-runner.ts:117-253 | While a spawn prepares, every earlier container of the session has exited and its exit handler has run. |
| ContainerRunner.ExitHandlerRemovesOwnEntry | src/container-runner.ts:206-243 | An exit handler finds its own handle recorded and removes exactly that entry. |
| ContainerRunner.RestartWakeIsNeverSwallowed | src/container-restart.ts:43-52 | When the wake of a restart runs, the killed handle's entry is gone; if the session row exists, the session has a younger container or wake afterwards, and if not, nothing changes. |
| ContainerRunner.RestartRespawnsIffSessionExists | src/container-restart.ts:43-52 | In every run, whatever happens between the kill and the moment its exit is noticed, a restart starts a new spawn if and only if the session row exists then. |
| ContainerRunner.RestartOfDeletedSession | src/channels/fugue-http.ts:2126-2138 | A run in which a session with a pending restart is killed and deleted by a cleanup, and stays down. |
| ContainerRunner.FailedSpawnIsRetried | src/container-runner.ts:104-113 | In every run a failed spawn takes its wake back and changes nothing else, and the next wake starts over. |
| ContainerRunner.StartAndStop | src/container-runner.ts:94-267 | An idle session is woken into a live container of its own; a kill without a restart makes it idle again, and nothing else changes. |
| ContainerRunner.Runner.WakeContainer | src/container-runner.ts:94-115 | Keeps a running container, joins a wake in flight, or starts one exactly if there is neither. |
| ContainerRunner.Runner.SpawnThrew | src/container-runner.ts:104-113 | The wake promise is deleted and no other. |
| ContainerRunner.Runner.SpawnReturned | src/container-runner.ts:206-243 | The entry is recorded, then the exit handler is registered, and the wake promise is deleted, in one block. |
| ContainerRunner.Runner.KillContainer | src/container-runner.ts:256-267 | Registers the restart wake behind the exit handler and marks the handle; without an entry nothing happens. |
| ContainerRunner.Runner.RunNextCallback | src/container-runner.ts:218-243 | The first reaction on an exited handle either removes the entry or, if the session row exists, wakes the session. |
| ContainerRestart.TargetsAreTheRunningSessions | src/container-restart.ts:26-30 | The restart list holds exactly the active sessions of the group that have a container. |
| ContainerRestart.TargetsAreDistinct | src/container-restart.ts:26-30 | No session is restarted twice in one call. |
| ContainerRestart.OneMessageEach | src/container-restart.ts:30-43 | Each target gets one message with the text, which triggers its next container on waking; without a text there is none. |
| ContainerRestart.KillAllTouchesTargetsOnly | src/container-restart.ts:30-52 | Each target's container is marked once with at most one respawn behind it; no other container, entry or wake changes. |
| ContainerRestart.RestartedSessionComesBackIffItExists | src/container-restart.ts:30-52 | After a restart of the group, whatever happens before a target's exit is noticed: it is spawned again if and only if its session row exists then. |
| ContainerRestart.Restarter.RestartAgentGroupContainers | src/container-restart.ts:21-59 | Kills exactly the targets, leaves each one an on-wake message and a respawn if a non-empty text is given, and returns their number. |
| Delivery.RunKeepsInv | src/delivery.ts:266-277 | Over every interleaving of any number of pollers: one drain per session, in step with the in-flight set; nothing queued is recorded; counts are 1 or 2 and of unrecorded messages. |
| Delivery.StateAccountsForHistory | src/delivery.ts:306-356 | In every process life the tables say what happened to each message that was not recorded before: failed after exactly three throws, delivered after at most two throws and one return, and otherwise the count of its throws. |
| Delivery.AtMostThreeAttempts | src/delivery.ts:39-42 | No message is handed to the channel more than three times in one process life, whatever the tables held at its start. |
| Delivery.RecordedIsFinal | src/delivery.ts:279-356 | A recorded message keeps its record and is never handed over again, in any continuation of the process life. |
| Delivery.RecordedOutlastsRestarts | src/delivery.ts:39-42 | The same over any number of restarts of the process, each of which forgets counts and drains. |
| Delivery.ReturnsOnceIffDelivered | src/delivery.ts:279-356 | Over any number of restarts at most one delivery of a message returns, and one did if and only if the message ends up recorded as delivered. |
| Delivery.OthersLeaveTheDrainAlone | src/delivery.ts:266-277 | Whatever runs while a drain waits touches neither that drain nor any message of its session. |
| Delivery.TurnSummary | src/delivery.ts:306-356 | One turn of the loop, with anything in between, makes exactly one attempt at the head message and none at the session's others. |
| Delivery.OthersHandOverNothing | src/delivery.ts:266-277 | While a drain waits, no other poller hands over a message of its session. |
| Delivery.TurnHandsOver | src/delivery.ts:319-320 | One turn hands over exactly the first message that is left. |
| Delivery.UndeliveredIsInOrder | src/delivery.ts:311-319 | The filter keeps the rows without a record, each once, in the order of the query. |
| Delivery.Deliverer.DeliverSessionMessages | src/delivery.ts:266-356 | A call skips a session that is being drained, or makes exactly one attempt at every undelivered message it read, and hands them over in the order of the rows. |
| Delivery.Deliverer.RecordResult | src/delivery.ts:318-356 | A return records delivered and forgets the count; a throw counts, and the third one records failed. |
| HostSweep.DecideStuckAction | src/host-sweep.ts:115-166 | The ceiling and idle tests and the loop over the claims give the decision that DecisionIsDetermined characterises. |
| HostSweep.DecisionIsDetermined | src/host-sweep.ts:115-166 | Ok if and only if none of the ceiling, idle and claim conditions holds; a claim kill names the first offending claim in list order. |
| HostSweep.KillIsMonotone | src/host-sweep.ts:115-166 | With the other inputs fixed, a kill at one time is a kill at every later time. |
| HostSweep.FreshHeartbeatIsSafe | src/host-sweep.ts:115-166 | A heartbeat equal to now is never killed. |
| HostSweep.DeclaredBashIsSafe | src/host-sweep.ts:273-276 | While Bash declares a timeout, silence and claims no older than it are tolerated. |
| HostSweep.TolerancesOf | src/host-sweep.ts:115-166 | The three conditions in numbers: a timeout declared by Bash counts only above 30 minutes or 60 seconds, and one declared by another tool never. |
| HostSweep.ResetChangesIff | src/host-sweep.ts:346-382 | Exactly which messages a reset changes, and how: pending ones without a time or with one that has come are put off by 5 seconds doubled with each try, or given up after the fifth. |
| HostSweep.RetriesFollowSchedule | src/host-sweep.ts:346-401 | Over every run of resets, acknowledgements and task commands a message is delayed by 5, 10, 20, 40 and 80 seconds in this order; it never has more than five tries and fails only after all of them. |
| HostSweep.FreshMessageLastsTotalBackoff | src/host-sweep.ts:101-102 | A message is not given up before 155 seconds after its first reset, if it is never rescheduled or five sweep intervals, less one for each restart of the process, are that long. |
| HostSweep.PacedFailsLate | src/adapters/scheduler/local.ts:42-86 | However often a message is rescheduled, paused or resumed, giving it up takes one sweep interval for each try that it has left, less one for each restart. |
| HostSweep.EventsLowerRank | src/host-sweep.ts:346-401 | No event raises a rank on status and remaining tries; a reset, an acknowledgement or a cancellation lowers it or leaves the message alone, and a reset of a message that may be retried always lowers it. |
| HostSweep.PausedIsLeftAlone | src/modules/scheduling/db.ts:36-55 | A paused task is neither reset nor due and is resumed as it was; a cancelled one is over for good. |
| HostSweep.CompletedIsFinal | src/db/session-db.ts:170-183 | A completed message never changes. |
| HostSweep.FailedIsFinalIffNeverAcknowledged | src/db/session-db.ts:170-183 | A failed message stays as it is if and only if no acknowledgement arrives; then it becomes completed. |
| HostSweep.ResetIsIdempotent | src/host-sweep.ts:346-401 | A second reset at the same time changes no message, whether or not the claims could be deleted. |
| HostSweep.ResetAllIsPerMessage | src/host-sweep.ts:346-401 | The loop over the claims resets each claimed message once and leaves the others. |
| HostSweep.SyncIsPerMessage | src/db/session-db.ts:170-183 | Acknowledgements complete exactly the acknowledged messages. |
| HostSweep.InsertedMessage | src/db/session-db.ts:120-135 | A message that arrives is pending and untried, and due and silent as it was sent. |
| HostSweep.PassWakesIff | src/db/session-db.ts:137-148 | A pass wakes a container if and only if none runs and, after the acknowledgements, a pending message with a trigger has no time or one whose second has come. |
| HostSweep.NewMessageWakes | src/host-sweep.ts:230-236 | A new message for a stopped session wakes it in the next pass. |
| HostSweep.SilentMessagesWakeNobody | src/host-sweep.ts:230-236 | A session with silently accumulated messages only is never woken. |
| HostSweep.PassKillsIff | src/host-sweep.ts:238-251 | A pass kills if and only if a container runs after the wake and one of the three conditions holds then; a quiet one without claims leaves the messages alone. |
| HostSweep.FreshContainerKilledIffOldClaim | src/host-sweep.ts:197-262 | A container woken in a pass is killed in that pass if and only if a claim already in the table is past its tolerance. |
| HostSweep.KillRepeatsIff | src/host-sweep.ts:384-400 | After a kill over claims or silence every claimed message is put off or given up, and the container that the next pass wakes is killed again if and only if the claims could not be deleted and one of them is past its tolerance. |
| HostSweep.PassIsARowRun | src/host-sweep.ts:197-262 | A whole pass acts on each id as a run of events: an acknowledgement it found, whatever happens during the wake, and a reset of its claim. |
| HostSweep.SweepsFollowSchedule | src/host-sweep.ts:197-262 | So the retry schedule holds from the insertion of every message on, over every sequence of passes, with acknowledgements, insertions and task commands between them and during their wakes. |
| HostSweep.SweepsLastTotalBackoff | src/adapters/scheduler/local.ts:42-86 | Over every sequence of sweeps on time, a new message that ends up failed had a reset and another one 155 seconds later, if it was never rescheduled or the intervals of its tries, less the restarts, are that long. |
| HostSweep.EarlyGiveUpIff | src/modules/scheduling/db.ts:67-105 | Sweeps an interval apart, with so many restarts, can give up a new message sooner if and only if five intervals, less one for each restart, are shorter than 155 seconds. |
| HostSweep.EarlyGiveUpTakesThreeRestarts | src/adapters/scheduler/local.ts:5 | At one sweep a minute, if and only if there are three restarts. |
| HostSweep.Sweeper.SweepSession | src/host-sweep.ts:197-262 | The pass over one session: acknowledgements, wake with anything happening meanwhile, stuck check, crashed check, in the order of the code. |
| HostSweep.Sweeper.EnforceRunningContainerSla | src/host-sweep.ts:278-335 | Acts on the decision: a kill of either kind also resets the session's claimed messages. |
| HostSweep.Sweeper.ResetStuckProcessingRows | src/host-sweep.ts:346-401 | The loop over the claims does what the specification says, message by message. |
| StateStoreLaws.CleanupIsInvisible | src/state-sqlite.ts:173-178 | A cleanup directly before a call changes the answer of no get, getList or acquireLock. |
| StateStoreLaws.CleanupInRunIsInvisible | src/state-sqlite.ts:173-178 | A cleanup anywhere in a run changes no later answer of get or setIfNotExists. |
| StateStoreLists.CleanupBeforeAppendIff | src/state-sqlite.ts:119-143 | A cleanup before an append changes what getList answers later if and only if the append trims a row, still to be seen, that it spares when the expired rows after it are gone. |
| StateStoreLists.CleanupShowsAfterAppend | src/state-sqlite.ts:119-143 | A list, reachable by two appends, for which it does. |
| StateStoreLists.CleanupBeforeRunIff | src/state-sqlite.ts:119-143 | A cleanup changes no answer of getList for a key, through every later run of all operations, if and only if it leaves the next index as it is or no row of the list could be seen any more. |
| StateStoreLaws.KvAnswersAreRight | src/state-sqlite.ts:32-62 | After every run under a monotone clock, get answers with the last value written while it has not expired, and setIfNotExists succeeds exactly when there is no live one. |
| StateStoreLaws.SetLasts | src/state-sqlite.ts:32-49 | A value set with a lifetime is answered up to its last millisecond and not after, one without a lifetime for good, whatever else happens, until the key is written again. |
| StateStoreLaws.GetDropsLapsed | src/state-sqlite.ts:32-42 | No lapsed row is left under a key that was asked for. |
| StateStoreLaws.SetIfNotExistsIsRightIff | src/state-sqlite.ts:51-62 | In any state setIfNotExists is right about liveness, except exactly for a row whose expiry is zero. |
| StateStoreLaws.ZeroExpiryBlocks | src/state-sqlite.ts:51-62 | Such a row can be written at any time, with a lifetime that ends at zero, and blocks setIfNotExists after its time. |
| StateStoreLaws.SubscribedIffLastWord | src/state-sqlite.ts:70-81 | A thread is subscribed exactly when the last word on it was to subscribe. |
| StateStoreLaws.LockIsExclusive | src/state-sqlite.ts:85-115 | While the holder neither frees its lock nor lets it lapse, it keeps it and every other acquire of the thread is refused, through every run; at its end an acquire would succeed exactly after the expiry. |
| StateStoreLaws.FreedLockCanBeTaken | src/state-sqlite.ts:97-115 | A release by the holder or a forced one frees the lock at once; a release with another token changes nothing. |
| StateStoreLaws.SupersededStaysOut | src/state-sqlite.ts:97-111 | Once a token has lost its lock, in every run that does not issue it again, it can extend nothing and release nothing. |
| StateStoreLaws.ExtendAfterCleanupIff | src/state-sqlite.ts:101-111 | A lapsed lock can be extended by its holder exactly until a cleanup finds it lapsed. |
| StateStoreLaws.CleanupBeforeExtendIff | src/state-sqlite.ts:85-111 | A cleanup before an extension changes the answer of a later acquire if and only if the lock had lapsed and the extension would have lasted until then. |
| StateStoreLaws.OtherLocksStay | src/state-sqlite.ts:85-115 | No operation on one thread's lock touches another's, but for the cleanup of lapsed ones. |
| StateStoreLaws.TrimmingKeepsSuffix | src/state-sqlite.ts:119-133 | Appending keeps the new row and the highest of the old ones, none skipped, at most maxLength in all. |
| StateStoreLaws.IndicesStayNonNegative | src/state-sqlite.ts:119-133 | No run produces a negative index. |
| StateStoreLists.ListingInOrder | src/state-sqlite.ts:135-143 | A list is read by increasing index, every row exactly once. |
| StateStoreLists.AppendIsSeenAsSuffix | src/state-sqlite.ts:119-143 | After an append a reader sees a suffix of what it saw before and the new value, at any later time at which that is unexpired. |
| StateStoreLaws.QueueRunRefines | src/state-sqlite.ts:147-169 | Through every run of all operations, but for an appendToList on a key that begins with `queue:`, the rows of each queue are a sequence at consecutive indices that enqueue and dequeue change as a bounded queue, although the indices restart when it empties. |
| StateStoreLaws.QueueAnswersAreRight | src/state-sqlite.ts:147-169 | From the empty database and with the same exception, dequeue answers with the oldest entry and the depth is the number of entries. |
| StateStoreLaws.DepthIsBoundedBySize | src/state-sqlite.ts:119-133 | The depth is at most maxSize if and only if maxSize is positive; a size of zero does not bound it. |
| StateAdapter.SqliteStateAdapter.Get | src/state-sqlite.ts:32-42 | Cleans up, drops a row that expired since, and answers as the specification does. |
| StateAdapter.SqliteStateAdapter.SetIfNotExists | src/state-sqlite.ts:51-62 | Replaces a stale row, otherwise inserts or leaves the row. |
| StateAdapter.SqliteStateAdapter.AcquireLock | src/state-sqlite.ts:85-95 | Removes a lapsed row, then inserts or refuses; the lock object agrees with the row. |
| StateAdapter.SqliteStateAdapter.ReleaseLock | src/state-sqlite.ts:97-99 | Removes the row of the same token only. |
| StateAdapter.SqliteStateAdapter.ExtendLock | src/state-sqlite.ts:101-111 | Moves the row and the caller's object together, or neither. |
| StateAdapter.SqliteStateAdapter.AppendToList | src/state-sqlite.ts:119-133 | One row after the highest index, then trimming. |
| StateAdapter.SqliteStateAdapter.GetList | src/state-sqlite.ts:135-143 | The unexpired values in order. |
| StateAdapter.SqliteStateAdapter.Enqueue | src/state-sqlite.ts:147-151 | Appends with trimming, and returns the number of rows after whatever ran at its await. |
| StateAdapter.SqliteStateAdapter.QueueDepth | src/state-sqlite.ts:163-169 | The number of rows of the queue. |
| StateAdapter.SqliteStateAdapter.Dequeue | src/state-sqlite.ts:153-161 | Takes the row of the lowest index. |
| Crc32.ShiftsAreLinear | setup/lib/teams-manifest.ts:117-127 | Any number of shift steps is linear over exclusive or. |
| Crc32.LookupIsEightSteps | setup/lib/teams-manifest.ts:129-135 | One table lookup is eight bit-serial steps on the register and the byte (section 3.4 of RFC 2083). |
| Crc32.FeedBitsIsShifts | setup/lib/teams-manifest.ts:129-135 | Feeding the bits of a byte one by one is shifting the register combined with it. |
| Crc32.BurstsAreDetected | setup/lib/teams-manifest.ts:129-135 | Two buffers that differ only within at most four consecutive bytes have the same CRC if and only if they are equal. |
| Crc32.ByteChangesAreDetected | setup/lib/teams-manifest.ts:129-135 | Buffers that differ in exactly one byte have different CRCs. |
| Crc32.MakeCrcTable | setup/lib/teams-manifest.ts:117-127 | Entry n is eight shift steps of n, for all 256 entries. |
| Crc32.ComputeCrc | setup/lib/teams-manifest.ts:129-135 | The table-driven loop computes the bit-serial CRC of every buffer. |
| Png.PackScanlines | setup/lib/teams-manifest.ts:150-178 | The filled buffer is every row with a zero filter byte in front. |
| Png.WriteChunk | setup/lib/teams-manifest.ts:137-148 | Length, type, data and the CRC of type and data; no chunk where the length does not fit. |
| Png.EncodePng | setup/lib/teams-manifest.ts:150-178 | The whole file, or none where a size does not fit four bytes. |
| Png.ReadWrittenChunk | setup/lib/teams-manifest.ts:137-148 | A reader of section 3.2 of RFC 2083, with its own reading of the checksum, takes back any written chunk, in front of any rest. |
| FourBytes.Be32RoundTrip | setup/lib/teams-manifest.ts:137-148 | Four big-endian bytes give back every number that fits them (section 2.1 of RFC 2083). |
| Png.UnfilterScanlines | setup/lib/teams-manifest.ts:150-178 | Removing the filter bytes gives the rows. |
| Png.EncodeRoundTrip | setup/lib/teams-manifest.ts:150-178 | The reader recovers width, height and rows from every encoded file, given only that inflate undoes deflate. |
| Png.ExactPixelsComeBack | setup/lib/teams-manifest.ts:150-178 | With a pixel array of the right size the pixels come back unchanged. |
| Png.PixelsAreFilled | setup/lib/teams-manifest.ts:150-178 | A shorter pixel array is filled up with zeros, and a longer one is cut. |
| Png.EndChunk | setup/lib/teams-manifest.ts:137-148 | The twelve bytes of the end chunk, with the checksum 0xae426082 most significant byte first. |
| Png.FileFrame | setup/lib/teams-manifest.ts:150-178 | The fixed bytes of every file: signature, a header chunk for eight-bit RGBA with width and height, one data chunk, the end chunk. |
| Png.WrongCheckIsRejected | setup/lib/teams-manifest.ts:137-148 | The reader refuses a chunk with any other checksum. |
| Png.DamagedChunkIsRejected | setup/lib/teams-manifest.ts:137-148 | The reader refuses a chunk damaged within at most four consecutive bytes of its type and data. |
| StatusBlocks.StartOfIsTheMatch | setup/lib/runner.ts:66-98 | The start-line test finds a step exactly where the pattern matches it. |
| StatusBlocks.ChunkingDoesNotMatter | setup/lib/runner.ts:66-98 | Any two ways to cut a text into chunks give the same blocks, transcript, open block and leftover. |
| StatusBlocks.WriteInTwo | setup/lib/runner.ts:66-98 | Writing two chunks equals writing them joined, in every state of the stream. |
| StatusBlocks.EmitStatus | setup/status.ts:6-16 | Prints the start line, one line per field and the end line. |
| StatusRoundTrip.PrintedForm | setup/status.ts:6-16 | The printed text of a block, character by character. |
| StatusBlocks.StatusStream.WriteChunk | setup/lib/runner.ts:66-80 | The loop over the buffer processes exactly the completed lines and keeps the rest. |
| StatusBlocks.StatusStream.HandleLine | setup/lib/runner.ts:82-98 | One line starts, closes or fills the current block, as the specification does. |
| StatusRoundTrip.OutputRoundTrip | setup/status.ts:6-16 | From any mix of printed blocks and noise lines, in any chunks, the parser returns exactly the printed steps and fields. |
| Utf8.Utf8RoundTrip | setup/lib/runner.ts:145-150 | Every text comes back from its UTF-8 bytes (section 3 of RFC 3629). |
| Utf8.WholeIsEncoded | setup/lib/runner.ts:145-150 | Only the shortest form of a character is read as it (section 3 of RFC 3629). |
| Utf8.CutCharacter | setup/lib/runner.ts:145-150 | A character that is cut off is read as one U+FFFD. |
| Utf8.DecodedIffCutsAreSafe | setup/lib/runner.ts:145-150 | Decoded buffer by buffer, a text comes back if and only if no buffer starts inside a character. |
| StatusRoundTrip.BuffersRoundTripIff | setup/lib/runner.ts:145-150 | The stream sees what was printed if and only if no buffer starts inside a character, and then it parses exactly the printed blocks. |
| StatusRoundTrip.EmitIsReadBackIffGood | setup/status.ts:6-16 | A printed block comes back if and only if its step is a word, its keys and values are clean one-line strings, and no field line looks like a marker. |
| StatusRoundTrip.MarkerLikeKeyIsLost | setup/lib/runner.ts:82-98 | The key `=== END ===` is clean and does not come back. |
| StatusRoundTrip.ParsedIsClean | setup/lib/runner.ts:82-98 | Whatever text arrives, parsed steps, keys and values are clean. |
| StatusRoundTrip.TerminalIsLastWithStatus | setup/lib/runner.ts:158-171 | The terminal block is the last one with a status, and there is none only if no block has one. |
| StatusRoundTrip.StepSucceedsIff | setup/lib/runner.ts:158-171 | Whatever else it prints and however its output arrives, a step succeeds if and only if it exits with zero and the last block it printed with a status says success or skipped. |
| Sessions.RunKeepsOnePerKey | src/session-manager.ts:88-129 | Over every run of resolutions in any modes, closings and deletions: at most one active session for each agent, messaging group and thread. |
| Sessions.DuplicatesIff | src/db/sessions.ts:36-53 | Exactly which requests add a second active session under a key: those without a messaging group, and those for the thread "" while no session without a thread stands in. |
| Sessions.EmptyThreadDuplicates | src/session-manager.ts:88-129 | Two messages of the thread "" get two sessions. |
| Sessions.ResolutionIsStable | src/session-manager.ts:88-129 | A shared or per-thread request meets the same session again after any run that does not end it, if and only if, before the first time, there is a messaging group and the thread is not "" or a session without a thread stands in. |
| Sessions.MadeSession | src/session-manager.ts:104-129 | A session that has to be made gets the drawn id and the time and is added last; otherwise the table stays. |
| Sessions.AgentSharedMeetsNewest | src/db/sessions.ts:56-60 | An agent-shared request meets a session if and only if that is the first inserted among the newest active ones of the agent. |
| Sessions.AgentSharedIsStableIff | src/session-manager.ts:88-129 | An agent-shared request meets the same session again after any run that does not end it, if and only if no request of the run made a newer session for the agent that is still active. |
| Sessions.AgentSharedMoves | src/db/sessions.ts:56-60 | A run in which it moves to a session made later in another group. |
| Sessions.SessionManager.ResolveSession | src/session-manager.ts:88-129 | Finds or inserts, makes a folder for exactly the new sessions, and keeps one session per key. |
| RouterLaws.CountsAreZeroIffNobodyActs | src/router.ts:448-513 | The engaged and accumulated counts add up to zero if and only if no decision acts. |
| RouterLaws.DropIsRecordedIff | src/router.ts:498-513 | Exactly when each drop reason is recorded; the reason for a drop after the gate never is. |
| RouterLaws.UnwiredReachesNobody | src/router.ts:198-280 | A message to a chat that is not known or has no agents touches no session and asks for no subscription. |
| RouterLaws.LostUnrecordedIff | src/router.ts:448-513 | Exactly when a message to a wired chat is taken by nobody and recorded nowhere. |
| RouterLaws.RefusedAgentGetsNothing | src/router.ts:298-318 | An agent for which a sender gate refused the message gets nothing under either policy and any classification. |
| RouterLaws.OneDecisionEach | src/router.ts:283-318 | There is one decision for each wired agent that still exists, in the order of the wirings. |
| RouterLaws.EngagesIffMeant | src/router.ts:566-593 | A message is meant for an agent by its pattern, by a mention, or in sticky mode by a mention or a session for the thread of a group; in any other mode never. |
| RouterLaws.OutcomeOfWiring | src/router.ts:448-490 | With the gate off or thrown: who is woken with the message, who gets it silently, who gets nothing, and as which outcome, by mode, sender gates, policy, provider and command gate. |
| RouterLaws.SessionOfWiring | src/router.ts:736-745 | The session a message is written to is an active one of the agent for the chat, with the thread exactly in groups on threaded adapters and in per-thread mode. |
| RouterLaws.AgentSharedDelivery | src/router.ts:736-745 | An agent-shared wiring uses the newest active session of the agent and makes none. |
| RouterLaws.WhoIsPassed | src/router.ts:370-442 | Who is passed the message for every gate result: nobody if it is insecure, the acting agents of one provider if it is classified, and all acting agents if the gate is off or throws at any point, even after an insecure verdict. |
| RouterLaws.InsecureReachesNobody | src/router.ts:370-423 | An insecure verdict reaches no agent, resolves no session and leaves no subscription and no drop record. |
| RouterLaws.ProvidersPartitionTheActing | src/router.ts:637-661 | The two other classifications share the acting agents out by provider, and without a classification all of them are passed. |
| RouterLaws.FanOutFits | src/router.ts:448-490 | What each decision leads to, independent of the decisions before it; a written message goes to a session of that agent. |
| RouterLaws.SubscribesOnce | src/router.ts:463-478 | At most one subscription over the fan-out, and one exactly when a decision wants it. |
| RouterLaws.RouteSubscribesIff | src/router.ts:463-478 | Over the whole route: one subscription exactly when the gate lets the message pass, it is in a thread of a group on a threaded adapter that can subscribe, and a mention-sticky agent is woken. |
| RouterLaws.NoGateNoWait | src/router.ts:370-380 | Without the gate, or if nobody would act, nothing is waited for before the fan-out. |
| RouterLaws.RouteIsARun | src/router.ts:448-490 | The route acts on the sessions table as its own resolutions, one for each agent that is passed the message, and the events at its awaits, in this order. |
| RouterLaws.RouteKeepsOnePerKey | src/router.ts:736-743 | The whole route keeps one active session per key. |
| RouterLaws.StickyEngagesIff | src/router.ts:585-592 | After a message was resolved, exactly when the next one in the thread engages without a mention. |
| RouterLaws.StickyKeepsEngaging | src/router.ts:585-592 | With a registered adapter, in a group and not agent-shared, a mention-sticky agent engages on every later message of the thread while that session lasts. |
| Router.Router.RouteInbound | src/router.ts:168-516 | The whole route changes sessions, drop records and subscriptions as the specification says, whatever happens at its awaits. |
| Router.Router.FanOutAll | src/router.ts:448-490 | The loop over the decisions is the fan-out, with its counters. |
| Router.Router.DeliverToAgent | src/router.ts:637-781 | Provider mismatch, ADK dispatch or drop, then session, command gate and message. |
| CircuitBreaker.AttemptIsLongestChain | src/circuit-breaker.ts:46-68 | Over every history the attempt written is the length of the longest chain of starts ending there with gaps under an hour and no clean stop. |
| CircuitBreaker.DelayIsMonotone | src/circuit-breaker.ts:34-37 | The delay lies between 0 and 900 seconds, never decreases in the attempt, and is 900 exactly from the seventh on. |
| CircuitBreaker.DelayOfAttempt | src/circuit-breaker.ts:11-37 | The delay of each attempt. |
| CircuitBreaker.WaitingNeverResets | src/circuit-breaker.ts:68-84 | A start that comes during or right after the wait of the one before counts one more. |
| CircuitBreaker.CrashLoopIsThrottled | src/circuit-breaker.ts:8-11 | In a crash loop the n-th start writes n and comes no sooner than all waits before it: 460 seconds for seven starts and 900 for each more. |
| CircuitBreaker.Breaker.EnforceStartupBackoff | src/circuit-breaker.ts:46-84 | Writes the state for the extended history and returns its delay. |
| CircuitBreaker.Breaker.ResetCircuitBreaker | src/circuit-breaker.ts:39-44 | The state after a clean stop. |
| ClaudeMdLaws.ComposeConverges | src/claude-md-compose.ts:40-136 | From any contents, composing leaves exactly the wanted fragments, the entry and the shared link, keeps or creates the local file, and touches nothing else. |
| ClaudeMdLaws.EachFragmentIsThere | src/claude-md-compose.ts:109-121 | Each wanted fragment is there with its own link or text. |
| ClaudeMdLaws.SecondComposeChangesNothing | src/claude-md-compose.ts:109-135 | A second run changes nothing. |
| ClaudeMdLaws.SourcesDoNotCollide | src/claude-md-compose.ts:59-107 | The skill, module and server fragments have distinct names, all ending in `.md`, so that none replaces another or is taken for a temporary file. |
| ClaudeMdFragments.SkillIsLinked | src/claude-md-compose.ts:65-77 | Each skill with instructions has its link. |
| ClaudeMdFragments.ModuleIsLinkedIff | src/claude-md-compose.ts:83-96 | Each module with instructions has its link, but `cli` has none exactly when it is disabled. |
| ClaudeMdFragments.ServerIsInlined | src/claude-md-compose.ts:98-107 | Each server with instructions has a file with them. |
| ClaudeMdFragments.FragmentHasSource | src/claude-md-compose.ts:109-114 | No other fragment is left. |
| ClaudeMdFragments.OtherFilesAre | src/claude-md-compose.ts:40-136 | The shared link, the entry, the local file, and all other files as they were. |
| ClaudeMdFragments.EntryText | src/claude-md-compose.ts:123-129 | The entry after its header: the shared base, then each fragment once, in the order of ComesFirst. |
| ClaudeMdFragments.LessIff | src/claude-md-compose.ts:125 | Names are ordered by their first different character, a prefix first. |
| ClaudeMdRuns.InterruptedRunsConverge | src/claude-md-compose.ts:191-211 | However many runs stopped between whichever file operations, with whatever they wanted, the next complete run leaves what it would have left without them, but for temporary files of the entry. |
| ClaudeMdRuns.EntryIsNeverPartial | src/claude-md-compose.ts:207-211 | At every moment of a run the entry is the old one or the complete new one. |
| ClaudeMdRuns.BodyNamesEachFragmentOnce | src/claude-md-compose.ts:123-129 | Read line by line, the entry names the shared base and every wanted fragment exactly once, in order, if and only if no name has a line feed. |
| ClaudeMdRuns.SortedIsUnique | src/claude-md-compose.ts:125-127 | The sorted list of names is the only one, so that equal sets of fragments give equal entries. |
| ClaudeMdRuns.LocalStays | src/claude-md-compose.ts:131-135 | No complete or interrupted run of either kind touches a local file. |
| ClaudeMdRuns.CutoverPreservesTextIff | src/claude-md-compose.ts:152-178 | After the cutover and any later runs the local file holds the old entry's text if and only if there was no local file, or one with that text. |
| ClaudeMdRuns.SecondCutoverDoesNothing | src/claude-md-compose.ts:152-178 | The old link is gone, and a second cutover has nothing to do. |
| ClaudeMdFragments.CutoverLeaves | src/claude-md-compose.ts:160-173 | What is at each name after the cutover. |
| ClaudeMdRuns.ComposeBeforeCutoverLosesText | src/claude-md-compose.ts:131-135 | Composed before the cutover, the text is lost: the local file is empty from then on. |
| GroupComposer.Composer.ComposeGroupClaudeMd | src/claude-md-compose.ts:40-136 | Performs exactly the listed file operations, in order. |
| GroupComposer.Composer.SyncSymlink | src/claude-md-compose.ts:191-205 | Whatever is at the path, afterwards the link is. |
| GroupComposer.Composer.WriteAtomic | src/claude-md-compose.ts:207-211 | A temporary file, then a rename. |
| GroupComposer.Composer.MigrateToClaudeLocal | src/claude-md-compose.ts:160-173 | The cutover of one group directory. |
| EnvFile.ReadEnvFile | src/env.ts:22-67 | For each wanted key, the last line of the file that sets it, even to nothing, and otherwise a non-empty process variable; no other keys. |
| EnvFile.EntryOfTrimEnd | src/env.ts:39-56 | Blanks at the end of a line do not change what it says. |
| EnvFile.AnswerComesFrom | src/env.ts:39-64 | The last line for a key counts, even an empty one; a process variable only if no line is there and it is not empty. |
| EnvFile.UnquoteIff | src/env.ts:49-55 | A value is kept as it is if and only if it has no like quotes at both ends; one pair is dropped. |
| EnvFile.QuotedLineReads | src/env.ts:39-56 | A line with a quoted value reads as what is inside the quotes, a line with a trimmed value without such a pair as the value. |
| EnvMerge.ParseAgreesWithReader | setup/migrate-v2/env.ts:12-23 | The migration finds an identifier key on exactly the lines on which the reader finds it, and keeps a line that reads the same. |
| EnvMerge.ParsedSaysTheSame | setup/migrate-v2/env.ts:12-23 | The parsed map holds exactly the identifier keys of the file, each with a line that gives the reader's answer. |
| EnvMerge.MergedSays | setup/migrate-v2/env.ts:38-66 | After the merge, every identifier key has the current value if there is one and otherwise the last value of the older file; other keys keep theirs. |
| EnvMerge.MergedKeepsText | setup/migrate-v2/env.ts:58-66 | The current text stays, as a prefix. |
| EnvMerge.WritesIff | setup/migrate-v2/env.ts:49-66 | The file is written exactly when the older file has an identifier key that the current one has not. |
| EnvMerge.IdentifiersAre | setup/migrate-v2/env.ts:20 | Which keys are carried over. |
| EnvMerge.AppendedInOrder | setup/migrate-v2/env.ts:49-57 | Lines are appended in the order in which the older file first sets their keys. |
| EnvMerge.MergedText | setup/migrate-v2/env.ts:48-66 | The text that is written: the current one, closed by a line feed, the banner unless it is there, the missing lines. |
| EnvMerge.SecondMergeWritesNothing | setup/migrate-v2/env.ts:38-66 | A second merge writes nothing. |
| EnvMerge.ParseEnv | setup/migrate-v2/env.ts:12-23 | The loop computes the map of last lines, in the order of first appearance. |
| EnvMerge.MigrateEnv | setup/migrate-v2/env.ts:25-66 | Writes the merged text, or nothing, and counts what it copied. |
| SetEnv.Run | setup/set-env.ts:26-59 | Refuses a key that is not upper snake case before writing; otherwise replaces the first matching line or appends. |
| SetEnvLaws.KeysAre | setup/set-env.ts:36-38 | Which keys are accepted. |
| SetEnvLaws.UpdatedAt | setup/set-env.ts:48-57 | For a value without patterns: the first line that starts with the key and an equals sign is replaced up to its line break; without one the new line is appended. |
| SetEnvLaws.PatternsAre | setup/set-env.ts:52-53 | What each replacement pattern stands for. |
| SetEnv.SaysAround | src/env.ts:39-56 | What the reader finds in a text with a one-line piece in the middle. |
| SetEnvLaws.SetThenRead | setup/set-env.ts:48-59 | In a file that is clear for the key, setting a plain value and reading gives it, and leaves every other key as it was. |
| SetEnvLaws.SetThenReadIff | setup/set-env.ts:48-59 | Every plain value is read back if and only if the file is clear for the key: the first match has its reader's line to itself and no later line speaks of the key. |
| SetEnvLaws.AppendedIsReadBackIff | setup/set-env.ts:54-57 | Where the key has no line yet, a value is read back if and only if it is trimmed, in one line and unquoted. |
| SetEnvLaws.DuplicateHidesNewValue | setup/set-env.ts:48-53 | A file with a second line for the key: after the update the reader still answers with the old value. |
| SetEnvLaws.ReplacedIsReadBackIffPlain | setup/set-env.ts:48-53 | A value is read back from every clear file that has a line for its key if and only if it is plain: trimmed, in one line, unquoted and without a replacement pattern. |
| SetEnvLaws.PatternIsExpanded | setup/set-env.ts:52-53 | A value with a replacement pattern that is expanded, and what the reader then answers. |

## Left out

- Docker, Kubernetes, channel adapters, the ADK dispatcher, the language-model gate and the network: their
  outcomes are inputs or nondeterministic steps.
- SQLite: tables are maps and sequences. Where a query without an order can return several rows, the model
  takes the first inserted.
- Compression: a function with a left inverse. Icon drawing, the manifest and the `zip` call.
- Logging, tracing, audit records, typing indicators, notices to administrators, cost and progress records.
- JSON: stored values are their texts. An engagement pattern, the sender gates and the slash-command gate are
  given by their answers for the message.
- The fan-out of recurring messages at the end of a pass, whose new row is an insertion like others;
  channel-request escalation, the message interceptor and reply redirection.
- A process that dies inside a sweep. Times of tasks that are no dates.
- Exceptions from the file system inside composing, other than an interruption between two operations. Names
  that are symbolic links in place of `CLAUDE.local.md` or a temporary file of the entry.
- Requested keys in `readEnvFile` that every object inherits, such as `constructor`: the process variable of
  such a key is not looked up by the code.
- The failure of removing the breaker's file on a clean stop: such a stop is no event in the model.
