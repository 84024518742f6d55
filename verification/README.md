# Verified core of the Stratum V2 applications

This project models, in Dafny, the parts of the Stratum V2 applications whose correctness is hardest to
see by reading: the fallback coordination between connection tasks, the job declarator client's failover
loop, the incremental and in-place forms that stand in for simple computations (midstate hashing,
word-wise target test, bounded share heap, Prometheus label bookkeeping, Noise frame reassembly), the
payout arithmetic from identity string to coinbase transaction, miner telemetry matching and refresh, and
the Prometheus selector used by the integration tests. Every theorem is about all inputs, all runs or all
interleavings of the model.

`dafny verify dfyconfig.toml` checks everything.

## How it is organised

| file | what it holds |
|---|---|
| `FallbackCoordinator.dfy` | The coordinator as an interleaving machine, one step per atomic access; the shared object as a class that refines it |
| `IoTasks.dfy` | Reader and writer task of one connection as an interleaving machine; `close_and_drain` |
| `FallbackTeardown.dfy` | Both machines together: any number of connections on one coordinator |
| `Failover.dfy` | An automaton over the client's actions, every check of the token and every answer of the network, with its laws, and the runtime proved to write only logs the automaton accepts and to choose what the answers decide |
| `FastSha256d.dfy`, `NonceSearch.dfy` | Midstate hasher against plain double SHA-256; target test, nonce windows, worker split |
| `ShareCache.dfy` | The best-share heap against "the 100 smallest of everything offered" |
| `SnapshotMetrics.dfy` | Gauge series against the snapshot they should show |
| `NoiseReader.dfy` | The read half and its socket against a reference decoder that knows no chunks: what is returned is right, and what is complete is returned; what senders' messages decode to |
| `Payout.dfy`, `PayoutIdentity.dfy`, `CoinbaseTx.dfy`, `CoinbaseConstraints.dfy` | Build, validate and compare payout modes; parse identities; check a split coinbase; reserve space |
| `MinerTelemetry.dfy` | The matcher, and the refresh of three maps under disconnects |
| `MetricSelector.dfy` | Printing, matching and looking up Prometheus series |
| `Bytes.dfy`, `Strings.dfy`, `Options.dfy`, `Runs.dfy` | Shared vocabulary |

What the code does not contain is a parameter: the SHA-256 compression function, the Noise decoder's
size/fill/step functions, which strings are addresses and their scripts, the `f64` parser, what a fetch
returns, what the network and the signals do, and every interleaving.

## Results that differ from a first reading

- `trigger_fallback_and_wait` can return while a registered handler is still running. In every reachable
  state before the return, a registration is unsafe if and only if a wakeup is stored or on its way at that
  moment (`FallbackCoordinator.RegistrationIsSafeExactly`), and a later return can be unsafe without further
  registrations if and only if such a wakeup exists while the count is not zero
  (`FallbackCoordinator.ReturnIsSafeExactly`). Carried over to connections: a reader started under a wakeup
  can outlive the return (`FallbackTeardown.StartingUnderHazard`), and a return from any quiet state finds
  everything that had started torn down (`FallbackTeardown.ReturnMeansTornDown`). The absence of a lost
  wakeup needs no assumption.
- A stalled peer can keep `trigger_fallback_and_wait` waiting: a writer inside a write sees no signal and
  does not call `done` (`FallbackTeardown.StalledPeerHangsFallback`). Nothing else can
  (`FallbackTeardown.StuckMeansReturnedOrHeld`).
- When one connection task has exited, the other is not always free to follow. The writer is held exactly
  while it is inside a write, which no signal interrupts; the reader exactly while it sits in its loop and no
  stop signal is set (`IoTasks.WriterFollowsReader`, `IoTasks.ReaderFollowsWriter`). Either way it handles at
  most one more frame.
- Validation adds and multiplies in wrapping `u64`, and amounts in a decoded coinbase are not bounded by the
  money supply. All outputs of a given spendable sum are judged rightly if and only if the sum, and the sum
  times 90 for legacy or the percentage for donations, stay below 2^64 (`Payout.AcceptanceIsExact`). Beyond
  that unpaid outputs can pass (`Payout.WrappedSumFoolsSolo`, `Payout.WrappedProductFoolsLegacy`) and
  refusals report wrong figures (`Payout.RefusalIsTruthful`). What the builder makes passes for every reward.
- A payout built with the pool's own script as the miner's script fails validation exactly when the pool's
  part is not zero (`Payout.BuiltVerdict`).
- Comparing modes at a reference value works exactly for references from 100 up, as long as `value * 255`
  fits `u64` (`Payout.HundredIsLeastReference`); beyond that it works exactly when no two percentages share a
  pool part (`Payout.DecidesExactly`), which fails at 2^63.
- The reserved size and sigop figures suffice exactly when adding the offsets does not overflow `u32` and
  `u16` (`CoinbaseConstraints.ReservationNeedsRoom`).
- Channels that share all label values overwrite each other's series. All counts are shown exactly when such
  channels agree (`SnapshotMetrics.ChannelsShownExactly`); otherwise the last one wins.
- Every refresh sets each known rejection code to 0 before it sets the count, so a scrape in between shows 0
  for a count that never changed (`SnapshotMetrics.KnownCodesDip`); exactly which series do is
  `SnapshotMetrics.ZeroedExactly`.
- After a refresh an address, or the status of a failed fetch, can be left for a downstream that disconnected
  during it; the next refresh removes it (`MinerTelemetry.Telemetry.Refresh`).
- Comments and code disagree in two places and the model follows the code: `hash_with_nonce_time` is
  described as returning reversed bytes but returns them in digest order
  (integration-tests/lib/mining_device/mod.rs:788-817), and `read_frame` is described as not
  cancellation-safe but keeps a partial window across a drop
  (stratum-apps/src/network_helpers/noise_stream.rs:217-258).

## Model

| member | source | states |
|---|---|---|
| `FallbackCoordinator.CounterIsExact` | stratum-apps/src/fallback_coordinator.rs:48-104 | In every interleaving the counter equals registered minus decremented handlers, and no decrement can underflow |
| `FallbackCoordinator.DecrementsOnce` | stratum-apps/src/fallback_coordinator.rs:91-104 | Counted over the schedule itself, each handler has decremented exactly once when it is past `fetch_sub` and never before |
| `FallbackCoordinator.CalmReturnIsSafe` | stratum-apps/src/fallback_coordinator.rs:64-104 | When the trigger returns and no registration happened while a wakeup was stored or on its way, the count is zero and every handler so far decremented exactly once, even if others cancelled first |
| `FallbackCoordinator.RegisteringUnderHazard` | stratum-apps/src/fallback_coordinator.rs:48-104 | From every reachable state with such a wakeup before the return, a registration can be followed by steps after which the trigger returns over the new, still active handler |
| `FallbackCoordinator.RegistrationIsSafeExactly` | stratum-apps/src/fallback_coordinator.rs:48-104 | In every reachable state before the return, whatever happened before, a registration is unsafe for the new handler if and only if a wakeup is stored or on its way |
| `FallbackCoordinator.ReturnIsSafeExactly` | stratum-apps/src/fallback_coordinator.rs:64-104 | In every reachable state before the return, the trigger can still return over some handler without further registrations if and only if a wakeup exists while the count is not zero |
| `FallbackCoordinator.QuietReturnIsSafe` | stratum-apps/src/fallback_coordinator.rs:64-104 | A return from a state in which a wakeup only exists at count zero finds every handler decremented exactly once |
| `FallbackCoordinator.CalmMeansQuiet` | stratum-apps/src/fallback_coordinator.rs:48-104 | In every calm schedule a wakeup only exists while the count is zero |
| `FallbackCoordinator.NotLateIsCalm` | stratum-apps/src/fallback_coordinator.rs:48-57 | A schedule in which nobody registers after the count went back to zero is calm |
| `FallbackCoordinator.ReturnIsSafe` | stratum-apps/src/fallback_coordinator.rs:64-104 | Corollary: the return is safe when nobody registered after the count went back to zero |
| `FallbackCoordinator.CancelledExactly` | stratum-apps/src/fallback_coordinator.rs:59-76 | In every schedule the token is cancelled exactly when somebody has cancelled it |
| `FallbackCoordinator.NoPermitBeforeCancel` | stratum-apps/src/fallback_coordinator.rs:91-104 | In every schedule without a cancellation no permit is stored and no handler can notify |
| `FallbackCoordinator.NobodyNotifiedBeforeCancel` | stratum-apps/src/fallback_coordinator.rs:91-104 | Such a schedule contains no notification |
| `FallbackCoordinator.EarlyCheckIsSilent` | stratum-apps/src/fallback_coordinator.rs:100-103 | A handler that read the token before every cancellation never stores a permit, whatever follows |
| `FallbackCoordinator.EarlyRegistrationIsSafe` | stratum-apps/src/fallback_coordinator.rs:48-104 | Before any cancellation, with no handler that took the count to zero between its decrement and its read of the token, a registration is safe in every continuation |
| `FallbackCoordinator.NotifiesExactly` | stratum-apps/src/fallback_coordinator.rs:91-104 | A handler goes on to notify if and only if somebody cancelled before its read of the token and its own decrement, found in the schedule, took the counter to zero |
| `FallbackCoordinator.PermitExactly` | stratum-apps/src/fallback_coordinator.rs:64-104 | A permit is stored if and only if a notification came since the last wakeup |
| `FallbackCoordinator.FastReturnIsSafe` | stratum-apps/src/fallback_coordinator.rs:64-76 | A return because the counter was loaded as zero is safe with no assumption on registration |
| `FallbackCoordinator.LateRegistrationIsUnsafe` | stratum-apps/src/fallback_coordinator.rs:48-104 | The smallest such case: a second handler registers between the decrement and the token check of the first, and the trigger returns over it |
| `FallbackCoordinator.NoLostWakeup` | stratum-apps/src/fallback_coordinator.rs:64-104 | A waiting trigger facing a zero count has a stored permit or a handler on its way to `notify_one`, with no assumption on registration |
| `FallbackCoordinator.SchedulesEnd` | stratum-apps/src/fallback_coordinator.rs:64-104 | Without further registrations no continuation of a schedule is longer than a rank of the state it starts in |
| `FallbackCoordinator.StuckMeansReturned` | stratum-apps/src/fallback_coordinator.rs:64-104 | A reachable state of the coordinator in which only registrations are possible, so every handler has been able to call `done`, has a returned trigger |
| `FallbackCoordinator.StepKeepsInv` | stratum-apps/src/fallback_coordinator.rs:48-104 | Every enabled atomic access keeps the invariant the theorems rest on |
| `FallbackCoordinator.Coordinator.RegisterHandler` | stratum-apps/src/fallback_coordinator.rs:48-57 | Registration is exactly the machine's register step, keeps the invariant, and keeps the state quiet when no wakeup exists |
| `FallbackCoordinator.Coordinator.AdvanceDone` | stratum-apps/src/fallback_coordinator.rs:91-104 | Each access of `done` is exactly one machine step for that handler, in order, moves it closer to finished and keeps a quiet state quiet |
| `FallbackCoordinator.Coordinator.CancelByOther` | stratum-apps/src/fallback_coordinator.rs:59-62 | A cancellation through a handed-out token is a machine step, or changes nothing when the token is already cancelled |
| `FallbackCoordinator.Coordinator.AdvanceTrigger` | stratum-apps/src/fallback_coordinator.rs:64-76 | Each access of the trigger is one machine step; from a quiet state it returns with a zero counter |
| `FallbackTeardown.StepKeepsInv` | miner-apps/jd-client/src/lib/io_task.rs:57-182 | Coordinator, connections and other components together: every step keeps each started task tied to its own handler, active exactly until the task has cleaned up |
| `FallbackTeardown.TasksAreNeverHeldUp` | miner-apps/jd-client/src/lib/io_task.rs:14-55 | In every combined run the coordinator never keeps a task from a step it could take alone |
| `FallbackTeardown.ReturnMeansTornDown` | miner-apps/jd-client/src/lib/jdc_runtime.rs:894-900 | When the trigger returns from a quiet state, every started reader and writer of every connection has cleaned up and its channels are closed and empty |
| `FallbackTeardown.CalmReturnMeansTornDown` | miner-apps/jd-client/src/lib/jdc_runtime.rs:894-900 | The same after any schedule without a registration under a wakeup |
| `FallbackTeardown.StuckMeansReturnedOrHeld` | miner-apps/jd-client/src/lib/jdc_runtime.rs:894-900 | In every reachable combined state where only the outside could still act, the trigger has returned or some writer is inside a write |
| `FallbackTeardown.WriteHoldsTheReturn` | miner-apps/jd-client/src/lib/io_task.rs:150-158 | In a quiet state the trigger never returns while a started writer is inside a write |
| `FallbackTeardown.StalledPeerHangsFallback` | miner-apps/jd-client/src/lib/io_task.rs:150-158 | A reachable state in which the trigger waits, a writer is inside a write, and nobody but the outside can do anything |
| `FallbackTeardown.StartingUnderHazard` | miner-apps/jd-client/src/lib/io_task.rs:74-80 | From every reachable combined state with a wakeup before the return, a reader that starts can still be in its loop with open channels when the trigger returns |
| `IoTasks.DoneExactlyOnce` | miner-apps/jd-client/src/lib/io_task.rs:14-55 | In every interleaving a coordinated task has called `done` exactly once when it has exited and not before; an uncoordinated one never registers |
| `IoTasks.ExitTearsDownForever` | miner-apps/jd-client/src/lib/io_task.rs:74-182 | Once either task has exited, inbound is closed and outbound closed and empty after any further steps of anybody |
| `IoTasks.FailureIsFinal` | miner-apps/jd-client/src/lib/io_task.rs:93-165 | After a failed write or read, a closed queue, a frame nobody takes or a stop, the task does nothing but clean up in every run |
| `IoTasks.SuccessGoesOn` | miner-apps/jd-client/src/lib/io_task.rs:93-165 | After every other step it is back in its loop, or inside the frame it has just taken |
| `IoTasks.FramesAreConserved` | miner-apps/jd-client/src/lib/io_task.rs:93-165 | Conservation over every run: each outbound frame handed in is received once, dropped by a drain or still queued; each received one is written once; each inbound frame read is forwarded once |
| `IoTasks.NothingIsDroppedAtWork` | miner-apps/jd-client/src/lib/io_task.rs:93-165 | As long as both tasks are in their loops no frame is dropped |
| `IoTasks.StopClosesInbound` | miner-apps/jd-client/src/lib/io_task.rs:81-146 | A stop and a failed read close the inbound channel at once |
| `IoTasks.WriterFollowsReader` | miner-apps/jd-client/src/lib/io_task.rs:130-176 | After the reader exits the writer can go on without the peer if and only if it has not exited and is not inside a write, which no signal interrupts |
| `IoTasks.ReaderFollowsWriter` | miner-apps/jd-client/src/lib/io_task.rs:74-123 | After the writer exits the reader can go on without the peer if and only if it has not exited and is not in its loop without a stop signal |
| `IoTasks.OneExitBoundsTheOther` | miner-apps/translator/src/lib/io_task.rs:33-149 | Once one task has exited, in every run the other takes at most its distance in steps, the reader reads at most one more frame and the writer ends at most the write it is in |
| `IoTasks.TornDownRunsOut` | miner-apps/jd-client/src/lib/io_task.rs:74-182 | The same from any state whose channels are torn down, as a bound that every step pays for |
| `IoTasks.WriterExitDoesNotFreeReader` | miner-apps/jd-client/src/lib/io_task.rs:74-182 | A reachable state in which the writer has exited and the reader is not free |
| `IoTasks.ReaderExitDoesNotFreeWriter` | miner-apps/jd-client/src/lib/io_task.rs:74-182 | A reachable state in which the reader has exited, a stop signal is set and the writer is not free |
| `IoTasks.RunsKeepInv` | miner-apps/jd-client/src/lib/io_task.rs:74-182 | Every run from an invariant state stays in it and never changes whether the tasks are coordinated |
| `IoTasks.StepOnlyShuts` | miner-apps/jd-client/src/lib/io_task.rs:74-182 | No step reopens a channel or adds to a closed one |
| `IoTasks.Receiver.Send` | miner-apps/jd-client/src/lib/io_task.rs:97-101 | A send succeeds exactly on an open channel; for the inbound channel that decides whether the reader returns to its loop or starts to clean up, for the outbound one it is the machine's send |
| `IoTasks.Receiver.TryRecv` | stratum-apps/src/channel_utils.rs:12-14 | Taking one item is the machine's drain step and fails exactly on an empty queue |
| `IoTasks.Receiver.CloseAndDrain` | stratum-apps/src/channel_utils.rs:8-17 | Built from the machine's accesses, it leaves the channel closed and empty and returns the number of items dropped |
| `Failover.SpentIsNeverRetried` | miner-apps/jd-client/src/lib/jdc_runtime.rs:677-772 | Over a whole run, after an upstream had a session or ran out of retries every later attempt or session is at a strictly larger index |
| `Failover.AtMostOneSessionPerUpstream` | miner-apps/jd-client/src/lib/jdc_runtime.rs:677-772 | The number of sessions of a run is bounded by the flagged upstreams and so by the configured ones |
| `Failover.AtMostThreeAttempts` | miner-apps/jd-client/src/lib/jdc_runtime.rs:677-772 | Between two bootstraps there are at most 3 attempts at any one upstream |
| `Failover.AttemptIsCleared` | miner-apps/jd-client/src/lib/jdc_runtime.rs:709-719 | Over a whole run every attempt comes right after a check that saw no stop |
| `Failover.SessionMeansConnected` | miner-apps/jd-client/src/lib/jdc_runtime.rs:719-723 | Every session follows an attempt at that very entry that connected, and every connected attempt is followed by its session |
| `Failover.ExhaustedMeansThreeFailures` | miner-apps/jd-client/src/lib/jdc_runtime.rs:709-767 | Before an entry is given up, the last nine events are three times a check, an attempt at it that failed with a fallback error, and a check that saw no stop |
| `Failover.FailuresAreCounted` | miner-apps/jd-client/src/lib/jdc_runtime.rs:709-767 | After a failed attempt the entry is given up next if and only if it was the third in a row |
| `Failover.StopMeansAbort` | miner-apps/jd-client/src/lib/jdc_runtime.rs:693-743 | A stop that was seen is followed by giving up, and so is a shutdown error after one more check |
| `Failover.AbortHasAReason` | miner-apps/jd-client/src/lib/jdc_runtime.rs:693-743 | The search is given up only for one of these two reasons |
| `Failover.SoloTriesNothing` | miner-apps/jd-client/src/lib/jdc_runtime.rs:526-531 | A client configured for solo mining never attempts anything |
| `Failover.ServicesDecide` | miner-apps/jd-client/src/lib/jdc_runtime.rs:526-551 | Services start right after a session or the choice of solo mining |
| `Failover.FailedHasAReason` | miner-apps/jd-client/src/lib/jdc_runtime.rs:526-551 | A bootstrap fails if and only if something did not start or no upstream is configured outside solo mode |
| `Failover.FirstConnectionServes` | miner-apps/jd-client/src/lib/jdc_runtime.rs:677-772 | When the network answers with a connection before the entries run out and nobody stops, the bootstrap ends in a session with the entry whose turn it is: the first unflagged one when it connects within its three tries |
| `Failover.SessionFollowsConnection` | miner-apps/jd-client/src/lib/jdc_runtime.rs:677-772 | Conversely a session means that attempt connected and all before it failed |
| `Failover.AllFlaggedMeansSolo` | miner-apps/jd-client/src/lib/jdc_runtime.rs:595-654 | Once every upstream is flagged no attempt or session ever happens and a bootstrap goes solo, aborts or fails |
| `Failover.SoloHasAReason` | miner-apps/jd-client/src/lib/jdc_runtime.rs:526-551 | Solo mining starts only when configured, when every upstream is flagged or right after giving up |
| `Failover.PrefixOk` | miner-apps/jd-client/src/lib/jdc_runtime.rs:526-551 | Every prefix of a log in order is in order and the flagged count only grows, up to the number of upstreams |
| `Failover.BootstrapAttemptBound` | miner-apps/jd-client/src/lib/jdc_runtime.rs:677-772 | Within a bootstrap, attempts at an entry are bounded by where the search stands and zero beyond it |
| `Failover.Runtime.TryWithChecks` | miner-apps/jd-client/src/lib/jdc_runtime.rs:709-764 | One try with its checks: a stop or a shutdown error gives up, `Ok` flags the entry and is the session, a fallback error is retried |
| `Failover.Runtime.ChooseUpstream` | miner-apps/jd-client/src/lib/jdc_runtime.rs:533-549 | Solo when configured, stopped or out of upstreams; otherwise the session the attempts decide |
| `Failover.Runtime.TryEntry` | miner-apps/jd-client/src/lib/jdc_runtime.rs:709-767 | Up to three attempts at one entry: with no stop, a session exactly at the first attempt that connected within three, giving up at a shutdown error, and the entry spent after exactly three fallback errors |
| `Failover.Runtime.InitializeJd` | miner-apps/jd-client/src/lib/jdc_runtime.rs:677-772 | With no stop, the answers of the network alone decide the walk: the first connecting attempt, three per unflagged entry in order, gives the session; a shutdown error gives up; else everything is flagged after three failures each |
| `Failover.Runtime.BootstrapMining` | miner-apps/jd-client/src/lib/jdc_runtime.rs:526-551 | The bootstrap fails exactly when the channel manager or the services do not start or there is nothing to connect to; else it runs, with the session the attempts decide, or solo when configured or stopped |
| `Failover.Runtime.FallBackOnce` | miner-apps/jd-client/src/lib/jdc_runtime.rs:894-940 | One fallback bootstraps again and leaves the client mining or stopped |
| `Failover.Runtime.MarkStopped` | miner-apps/jd-client/src/lib/mod.rs:53-57 | The client is no longer alive and its token is cancelled |
| `Failover.Runtime.Shutdown` | miner-apps/jd-client/src/lib/jdc_runtime.rs:269-308 | Shutting the runtime down always ends with the client marked as stopped |
| `Failover.Runtime.Start` | miner-apps/jd-client/src/lib/mod.rs:69-109 | For every sequence of wait events the log is in order; there is one fallback for each request served; it returns well exactly from a shutdown request, badly only when something did not start, and every returning path has stopped the client |
| `FastSha256d.HeaderDigest` | integration-tests/lib/mining_device/mod.rs:745-786 | Padded SHA-256 of an 80-byte header is two compressions, the first over its static 64 bytes |
| `FastSha256d.DigestDigest` | integration-tests/lib/mining_device/mod.rs:745-817 | SHA-256 of a 32-byte digest is one compression of the digest followed by fixed padding |
| `FastSha256d.Hasher.constructor` | integration-tests/lib/mining_device/mod.rs:745-786 | The midstate and both buffers belong to the given header |
| `FastSha256d.Hasher.WriteDigest` | integration-tests/lib/mining_device/mod.rs:788-817 | Whatever the second block held, it becomes the state's big-endian words followed by the padding |
| `FastSha256d.Hasher.HashWithNonceTime` | integration-tests/lib/mining_device/mod.rs:788-817 | After any earlier calls on the object, the result equals plain double SHA-256 of the serialized header with this time and nonce |
| `FastSha256d.LastBlock` | integration-tests/lib/mining_device/mod.rs:745-786 | A fresh block holding the head, the padding bit, zeros and the big-endian bit length |
| `FastSha256d.HeaderFields` | integration-tests/lib/mining_device/mod.rs:745-752 | Where each of the six fields lies in the 80 bytes, integers least significant byte first |
| `FastSha256d.DigestWord` | integration-tests/lib/mining_device/mod.rs:788-817 | The words of a digest lie in order, each with the value of its four bytes most significant first |
| `FastSha256d.InitialValue` | integration-tests/lib/mining_device/mod.rs:819-824 | The initial state is the fractional parts of the square roots of the first eight primes |
| `FastSha256d.PaddedMessage` | integration-tests/lib/mining_device/mod.rs:745-786 | Padding keeps the message, adds one bit, the fewest zeros, and ends with the bit length |
| `NonceSearch.HashMeetsTarget` | integration-tests/lib/mining_device/mod.rs:841-869 | The word-wise early-exit comparison equals `<=` on 256-bit little-endian integers |
| `NonceSearch.HighPartDecides` | integration-tests/lib/mining_device/mod.rs:841-869 | Equal-length little-endian numbers are ordered by their high parts when these differ |
| `NonceSearch.SearchWindow` | integration-tests/lib/mining_device/mod.rs:977-1091 | The reported nonce is the first of the window whose double hash meets the target; nothing is reported exactly when there is none |
| `NonceSearch.Miner.constructor` | integration-tests/lib/mining_device/mod.rs:595-660 | A hasher exists exactly when there is a header, and hashes for that header |
| `NonceSearch.Miner.TryNonce` | integration-tests/lib/mining_device/mod.rs:662-728 | The share outcome is the target test on the plain double hash, with the cases of a missing header or target |
| `NonceSearch.Miner.MineWindow` | integration-tests/lib/mining_device/mod.rs:1041-1070 | One batch reports its least hit and advances the nonce by the batch size modulo 2^32 |
| `NonceSearch.Miner.MineOne` | integration-tests/lib/mining_device/mod.rs:1071-1088 | Without a hasher or a target a pass tries one nonce, reports it exactly when it meets a target, and advances by one |
| `NonceSearch.Miner.MineWindows` | integration-tests/lib/mining_device/mod.rs:977-1091 | Any number of passes on either path: windows are contiguous, of the sizes asked for or of one nonce, and each reports its least hit for the same header; without a header nothing happens |
| `NonceSearch.WindowsSweep` | integration-tests/lib/mining_device/mod.rs:977-1091 | After contiguous windows the search stands at the start plus all batch sizes, modulo 2^32 |
| `NonceSearch.WorkerNonceExact` | integration-tests/lib/mining_device/mod.rs:946-975 | For every worker count, a worker's first `u32::MAX / p` nonces never wrap |
| `NonceSearch.WorkersAreDisjoint` | integration-tests/lib/mining_device/mod.rs:946-975 | Different workers, or different positions of one worker, have different nonces there |
| `NonceSearch.WorkersCover` | integration-tests/lib/mining_device/mod.rs:946-975 | Every nonce below `p * (u32::MAX / p)` has its worker and position, and between 1 and `p` nonces remain |
| `NonceSearch.SearchesAreDisjoint` | integration-tests/lib/mining_device/mod.rs:946-1091 | Whatever batches they use, workers that have each passed at most their share never try a nonce twice, neither two of them nor one alone |
| `ShareCache.BestIsUnique` | miner-apps/jd-client/src/lib/utils.rs:428-437 | The specification determines the multiset of kept targets |
| `ShareCache.RootIsWorst` | miner-apps/jd-client/src/lib/utils.rs:408-412 | In a heap no entry has a larger target than the root |
| `ShareCache.Push` | miner-apps/jd-client/src/lib/utils.rs:438-472 | Pushing keeps the heap order and exactly the entries plus the new one |
| `ShareCache.Pop` | miner-apps/jd-client/src/lib/utils.rs:438-472 | Popping returns the root and leaves a heap of exactly the other entries |
| `ShareCache.Cache.Add` | miner-apps/jd-client/src/lib/utils.rs:399-472 | After each offer the cached values are the `min(n, 100)` smallest of all `n` offered hashes read as 256-bit little-endian integers, and every cached share was offered with its hash |
| `ShareCache.Cache.AddAll` | miner-apps/jd-client/src/lib/utils.rs:389-472 | The same after any sequence of offers |
| `SnapshotMetrics.PublishedLabels` | stratum-apps/src/monitoring/snapshot_cache.rs:255-557 | Accepted series carry exactly the snapshot's labels, hashrate series a subset |
| `SnapshotMetrics.RejectedKeys` | stratum-apps/src/monitoring/snapshot_cache.rs:285-300 | A rejected series exists exactly when some channel has it as a known code or an observed reason |
| `SnapshotMetrics.LastRejectedWins` | stratum-apps/src/monitoring/snapshot_cache.rs:285-303 | A rejected series shows what the last channel that has it says |
| `SnapshotMetrics.LastAcceptedWins` | stratum-apps/src/monitoring/snapshot_cache.rs:275-283 | An accepted series shows what the last channel with these labels says |
| `SnapshotMetrics.LastHashrateWins` | stratum-apps/src/monitoring/snapshot_cache.rs:304-311 | A hashrate series shows what the last channel with these labels and a known hashrate says |
| `SnapshotMetrics.HashrateOfChannel` | stratum-apps/src/monitoring/snapshot_cache.rs:304-311 | A channel finds its own hashrate when channels with its labels that know theirs agree |
| `SnapshotMetrics.AcceptedShownExactly` | stratum-apps/src/monitoring/snapshot_cache.rs:255-557 | Every channel finds its own accepted count if and only if channels with equal labels have equal counts |
| `SnapshotMetrics.RejectedShownExactly` | stratum-apps/src/monitoring/snapshot_cache.rs:255-557 | Every channel finds its own rejection values if and only if any two agree on each series both have |
| `SnapshotMetrics.ChannelsShownExactly` | stratum-apps/src/monitoring/snapshot_cache.rs:255-480 | For the channels of a snapshot: all counts are shown if and only if channels with equal labels have equal accepted counts and agree on the reasons both have |
| `SnapshotMetrics.SharedLabelsHideCounts` | stratum-apps/src/monitoring/snapshot_cache.rs:285-303 | Two channels with equal labels of which only the first observed a known code: the series shows 0 |
| `SnapshotMetrics.RowKeys` | stratum-apps/src/monitoring/snapshot_cache.rs:275-313 | A channel's rejection labels are exactly its own labels with a known code or an observed reason appended |
| `SnapshotMetrics.RowCounts` | stratum-apps/src/monitoring/snapshot_cache.rs:295-303 | Observed reasons, and only those, carry the channel's own count |
| `SnapshotMetrics.SeriesOfChannel` | stratum-apps/src/monitoring/snapshot_cache.rs:255-480 | With distinct labels, each channel's accepted count and each of its codes or reasons (count or 0) appears under its labels |
| `SnapshotMetrics.NoOtherSeries` | stratum-apps/src/monitoring/snapshot_cache.rs:255-480 | Every rejected series belongs to a current channel and one of its codes or reasons |
| `SnapshotMetrics.LabelsOfChannels` | stratum-apps/src/monitoring/snapshot_cache.rs:255-480 | The published label set is exactly that of the current channels |
| `SnapshotMetrics.ServerVisited` | stratum-apps/src/monitoring/snapshot_cache.rs:275-360 | Exactly the extended and the standard channels of the server are published, under their own labels, extended ones first |
| `SnapshotMetrics.ClientVisited` | stratum-apps/src/monitoring/snapshot_cache.rs:387-480 | Exactly the extended and standard channels of the clients are published, each with its client id in front |
| `SnapshotMetrics.ClientOrder` | stratum-apps/src/monitoring/snapshot_cache.rs:387-480 | Clients in order, and for each its extended channels before its standard ones |
| `SnapshotMetrics.ServerGauges` | stratum-apps/src/monitoring/snapshot_cache.rs:275-360 | Every server channel is shown under its id and user when those that share both agree, and no other accepted series exists |
| `SnapshotMetrics.ClientGauges` | stratum-apps/src/monitoring/snapshot_cache.rs:387-480 | Every client channel is shown under client id, channel id and user when those that share all three agree, and no other accepted series exists |
| `SnapshotMetrics.Settle` | stratum-apps/src/monitoring/snapshot_cache.rs:480-557 | Publishing over old series and dropping remembered labels not seen now leaves exactly the new series |
| `SnapshotMetrics.Side.CloneWithFreshMetrics` | stratum-apps/src/monitoring/snapshot_cache.rs:125-206 | A clone given fresh metrics, wiring the same or other gauges, keeps the label memory and the invariant |
| `SnapshotMetrics.Side.PublishAll` | stratum-apps/src/monitoring/snapshot_cache.rs:255-480 | The setting half puts the snapshot's series over the old ones and collects exactly their labels |
| `SnapshotMetrics.Side.RemoveStale` | stratum-apps/src/monitoring/snapshot_cache.rs:480-557 | The removing half deletes exactly the remembered labels that were not visited, never one to be kept |
| `SnapshotMetrics.Side.Update` | stratum-apps/src/monitoring/snapshot_cache.rs:220-251 | After a refresh accepted and rejected series are exactly those of the snapshot and hashrate series exactly the current ones plus the old ones of labels still there; on the way no label in both snapshots is ever missing, and exactly the `ZeroedBy` series are set to 0 |
| `SnapshotMetrics.HashrateMeans` | stratum-apps/src/monitoring/snapshot_cache.rs:304-311 | A label shows its current hashrate if known, else the one it showed before, and nothing once it is gone |
| `SnapshotMetrics.ZeroedExactly` | stratum-apps/src/monitoring/snapshot_cache.rs:285-303 | The rejected series set to 0 during a refresh are exactly every known code of a channel and every reason observed 0 times |
| `SnapshotMetrics.KnownCodesDip` | stratum-apps/src/monitoring/snapshot_cache.rs:285-303 | A known code is set to 0 during every refresh, also when its count is positive before and after |
| `SnapshotMetrics.OtherReasonsDoNotDip` | stratum-apps/src/monitoring/snapshot_cache.rs:295-303 | Another reason never is, as long as its counts are positive |
| `SnapshotMetrics.RefreshAll` | stratum-apps/src/monitoring/snapshot_cache.rs:220-251 | After any sequence of refreshes accepted and rejected series depend on the last snapshot alone, and hashrate series are the exact result of the whole sequence |
| `SnapshotMetrics.UpdateMetrics` | stratum-apps/src/monitoring/snapshot_cache.rs:255-557 | One snapshot brings server and client gauges into agreement with all its channels: every extended and standard channel of the server and of each client is shown under its own labels when those that share labels agree; hashrates and the series set to 0 on the way are exact, and no label present before and after was missing in between |
| `NoiseReader.DecodeExtends` | stratum-apps/src/network_helpers/noise_stream.rs:301-317 | Later bytes never change what the reference has decoded |
| `NoiseReader.FramesGrow` | stratum-apps/src/network_helpers/noise_stream.rs:301-317 | More windows only append frames, and none after the first failed step |
| `NoiseReader.MessagesDecode` | stratum-apps/src/network_helpers/noise_stream.rs:301-317 | Round trip: any sequence of messages, each cut into the windows the decoder asks for until it yields the frame, decodes to exactly these frames in order, with nothing left over |
| `NoiseReader.RejectedWindow` | stratum-apps/src/network_helpers/noise_stream.rs:301-317 | After a window the decoder rejects, no later bytes bring a frame |
| `NoiseReader.WindowTracks` | stratum-apps/src/network_helpers/noise_stream.rs:301-317 | A full buffer is exactly the reference's next window of the stream |
| `NoiseReader.FedTracks` | stratum-apps/src/network_helpers/noise_stream.rs:301-317 | Feeding it keeps reader and reference in step |
| `NoiseReader.AcceptTracks` | stratum-apps/src/network_helpers/noise_stream.rs:224-258 | Taking any piece of the socket's bytes keeps them in step |
| `NoiseReader.ReadHalf.Take` | stratum-apps/src/network_helpers/noise_stream.rs:233-245 | One read takes as many of the bytes that are there as the window has room for, from the front |
| `NoiseReader.ReadHalf.Deliver` | stratum-apps/src/network_helpers/noise_stream.rs:233-245 | Bytes arrive behind those not yet read, and nothing arrives after the end |
| `NoiseReader.ReadHalf.NextFrame` | stratum-apps/src/network_helpers/noise_stream.rs:301-317 | One window is fed; the call fails exactly when the transport state is lost, and the frame returned is the one this window completed |
| `NoiseReader.ReadHalf.TryReadFrame` | stratum-apps/src/network_helpers/noise_stream.rs:266-299 | Takes exactly what is there of the missing bytes, feeds the window exactly when that fills it, fails on an empty closed socket and says `NotYet` otherwise |
| `NoiseReader.ReadHalf.FillWindow` | stratum-apps/src/network_helpers/noise_stream.rs:233-245 | Reads until the window is full; stops earlier only on a closed socket with nothing left, or suspended for want of bytes |
| `NoiseReader.ReadHalf.ReadFrame` | stratum-apps/src/network_helpers/noise_stream.rs:224-258 | For every sequence of chunks and a drop at any await: a frame is the next one of the reference, a failure is the decoder's or a closed empty socket, a suspension lacks bytes or a turn; and when the bytes that arrive complete the next frame and the socket stays open, exactly that frame is returned |
| `NoiseReader.ReadCompletes` | stratum-apps/src/network_helpers/noise_stream.rs:224-258 | Whatever a call did, if the stream completes its next frame at some window it has turns for and the socket is open, the result is that frame and exactly these windows were fed |
| `NoiseReader.MessageCompletes` | stratum-apps/src/network_helpers/noise_stream.rs:224-258 | The next message of such a sequence, whatever follows it, is what a reader that has returned all frames before it returns next |
| `NoiseReader.ChunkingIsInvisible` | stratum-apps/src/network_helpers/noise_stream.rs:224-317 | Two readers of the same stream that differ in chunking and calls return prefixes of each other, and equal windows mean equal states |
| `Payout.WrapSumIsExact` | stratum-apps/src/payout.rs:125-181 | The two wrapping `u64` sums of the validator are the exact sums modulo 2^64 |
| `Payout.VerdictIgnoresOrderAndOpReturn` | stratum-apps/src/payout.rs:125-181 | The verdict depends only on the multiset of spendable outputs |
| `Payout.VerdictIgnoresSplitting` | stratum-apps/src/payout.rs:125-181 | Splitting an output into two to the same script changes nothing |
| `Payout.NoOverflow` | stratum-apps/src/payout.rs:238-251 | Up to the money supply no product overflows |
| `Payout.MoneyFits` | stratum-apps/src/payout.rs:238-251 | Up to the money supply neither the sum nor the product of any mode overflows |
| `Payout.PoolPartWithin` | stratum-apps/src/payout.rs:60-107 | For every total, overflow or not, the pool's part stays within it |
| `Payout.BuilderConserves` | stratum-apps/src/payout.rs:60-107 | Built outputs add up to the total, for every `u64` total |
| `Payout.BuiltAmounts` | stratum-apps/src/payout.rs:60-107 | Which script gets which amount in which order for each mode, in exact numbers when the product does not overflow |
| `Payout.AcceptedIffPaid` | stratum-apps/src/payout.rs:125-181 | When the spendable sum and the mode's product stay below 2^64, outputs pass if and only if they pay the miner everything, exactly the rounded-up share, or at least 90 percent |
| `Payout.AcceptanceIsExact` | stratum-apps/src/payout.rs:125-181 | For every mode and every spendable sum, all outputs with that sum are judged rightly if and only if neither the sum nor the mode's product overflows |
| `Payout.WrappedSumFoolsSolo` | stratum-apps/src/payout.rs:139-155 | Outputs of 2^64 + 1 that pay the miner one satoshi pass as full solo payout |
| `Payout.WrappedProductFoolsLegacy` | stratum-apps/src/payout.rs:249-251 | Just above 2^64 / 90 one satoshi passes as 90 percent |
| `Payout.RefusalIsTruthful` | stratum-apps/src/payout.rs:125-181 | A refusal reports nothing spendable exactly then, and otherwise the true sums and the least amount the mode accepts, if and only if neither the sum nor the mode's product overflows |
| `Payout.BuiltVerdict` | stratum-apps/src/payout.rs:60-107 | For every `u64` reward, built outputs pass if and only if it is not a donation with one script for both parties and a non-zero pool part |
| `Payout.BuilderPassesValidator` | stratum-apps/src/payout.rs:60-181 | For every mode, every reward of at least one satoshi and distinct spendable scripts, what is built passes |
| `Payout.ReferenceDecides` | stratum-apps/src/payout.rs:109-119 | Equal outputs at one reference of at least 100 that cannot overflow mean equal outputs at every total |
| `Payout.ComparisonIsComplete` | stratum-apps/src/payout.rs:109-119 | The 100-satoshi comparison holds if and only if the modes build equal outputs for every total, and any such reference agrees |
| `Payout.BlindBelowHundred` | stratum-apps/src/payout.rs:109-119 | Every reference below 100 takes two different donations for equal |
| `Payout.HundredIsLeastReference` | stratum-apps/src/payout.rs:109-119 | Among references whose products cannot overflow, equal outputs decide equality at every total if and only if the reference is at least 100 |
| `Payout.DecidesExactly` | stratum-apps/src/payout.rs:109-119 | Any reference, overflow included, decides if and only if no two percentages share a pool part |
| `Payout.BlindReferences` | stratum-apps/src/payout.rs:109-119 | At 2^63 the products wrap and two donations look equal |
| `PayoutIdentity.ParsesSolo` | stratum-apps/src/payout.rs:257-309 | `sri/solo/<address>` parses to its mode whatever the worker suffix holds |
| `PayoutIdentity.ParsesDonate` | stratum-apps/src/payout.rs:257-309 | `sri/donate/<p>/<address>` parses to its mode and percentage when `<p>` is the decimal print of 1 to 99, with or without a plus sign and leading zeros |
| `PayoutIdentity.ParsesLegacy` | stratum-apps/src/payout.rs:257-309 | `<address>` with any dotted suffix parses to the legacy mode |
| `PayoutIdentity.ParsesExactly` | stratum-apps/src/payout.rs:286-288 | A text parses to a number below 256 if and only if it is the decimal print of it, with an optional plus sign and leading zeros |
| `PayoutIdentity.RefusesSoloAddress` | stratum-apps/src/payout.rs:275-281 | `sri/solo/<x>` with no address in `<x>` is refused for that text |
| `PayoutIdentity.RefusesDonation` | stratum-apps/src/payout.rs:286-303 | The three refusals of a donation, in order: no number, a number outside 1 to 99, no address |
| `PayoutIdentity.RefusesOtherWords` | stratum-apps/src/payout.rs:305-307 | `sri/<word>` with any other word, and `sri/solo` alone, are refused as identities |
| `PayoutIdentity.VerificationSwitch` | miner-apps/translator/src/lib/config.rs:169-193 | Verification that is off asks for nothing; on, it passes modes with a miner payout and other errors through |
| `PayoutIdentity.ParsedModeIsNamed` | stratum-apps/src/payout.rs:257-309 | Conversely every mode returned is spelled out by the identity in one of these forms, its percentage as printed |
| `PayoutIdentity.RefusesFullDonation` | miner-apps/translator/src/lib/config.rs:169-193 | An identity gives all to the pool, and is rejected for it, if and only if it is `sri/donate` with at most one more part |
| `PayoutIdentity.RefusesModeless` | miner-apps/translator/src/lib/config.rs:169-193 | An identity is rejected for having no mode if and only if it is empty, or has no address in front and is `sri` alone or does not start with `sri` |
| `PayoutIdentity.VerifiedModeIsReal` | miner-apps/translator/src/lib/config.rs:169-193 | Any identity let through has a mode with a miner payout to its own address that refuses the empty output set |
| `PayoutIdentity.VerifiedPayoutIsReal` | miner-apps/translator/src/lib/config.rs:169-193 | For every spendable sum that mode judges all outputs rightly if and only if neither the sum nor its product overflows |
| `CoinbaseTx.RoundTrip` | stratum-apps/src/payout.rs:193-210 | Decoding the serialization of any well-formed transaction, with or without witnesses, returns it |
| `CoinbaseTx.VarIntForms` | stratum-apps/src/payout.rs:193-210 | The four forms of a length prefix, by value |
| `CoinbaseTx.TransactionFrame` | stratum-apps/src/payout.rs:193-210 | Version first, marker and flag exactly with witnesses, lock time last |
| `CoinbaseTx.InputFields` | stratum-apps/src/payout.rs:193-210 | Where outpoint, scriptSig and sequence lie in an input |
| `CoinbaseTx.OutputFields` | stratum-apps/src/payout.rs:193-210 | An output is its value in eight bytes, least significant first, then its script |
| `CoinbaseTx.DecodesOnlySerializations` | stratum-apps/src/payout.rs:193-210 | Whatever decodes is the serialization of a well-formed transaction, so decoding and serializing are inverse |
| `CoinbaseTx.ValidateTxParts` | stratum-apps/src/payout.rs:193-210 | For every transaction, with or without witnesses, cut around an extranonce of this size inside its scriptSig the verdict is that on its outputs; a decode error is returned exactly when no transaction has the zero-filled bytes |
| `CoinbaseTx.SerializedAround` | stratum-apps/src/payout.rs:183-210 | Where the first input's scriptSig lies in the serialization |
| `CoinbaseTx.SplitCoinbaseVerdict` | stratum-apps/src/payout.rs:183-210 | For every well-formed coinbase and every split around an extranonce inside the scriptSig, the verdict on the zero-filled parts is the verdict on the real outputs |
| `CoinbaseConstraints.StandardSigOps` | stratum-apps/src/coinbase_output_constraints.rs:18-27 | Of the standard scripts only p2pkh counts a signature operation, whatever bytes the pushed hashes hold |
| `CoinbaseConstraints.StandardSize` | stratum-apps/src/coinbase_output_constraints.rs:18-27 | No standard output is larger than a taproot output, which has exactly the offset's size |
| `CoinbaseConstraints.OutSizeIsSerialized` | stratum-apps/src/coinbase_output_constraints.rs:40-70 | The size counted for an output is the length of its serialization |
| `CoinbaseConstraints.SizeIsSerialized` | stratum-apps/src/coinbase_output_constraints.rs:40-70 | The total size is the length of all outputs serialized |
| `CoinbaseConstraints.ExactCoversItself` | stratum-apps/src/coinbase_output_constraints.rs:40-70 | The figures of given outputs cover them if and only if they fit their words |
| `CoinbaseConstraints.SigOpTable` | stratum-apps/src/coinbase_output_constraints.rs:40-70 | What each signature opcode costs |
| `CoinbaseConstraints.PushDataSkipped` | stratum-apps/src/coinbase_output_constraints.rs:40-70 | Pushed data of any length form is never counted |
| `CoinbaseConstraints.BuiltFigures` | stratum-apps/src/payout.rs:60-107 | Size and sigop cost of what a mode builds, by the scripts it pays |
| `CoinbaseConstraints.Announced` | stratum-apps/src/coinbase_output_constraints.rs:94-105 | The announced figures are exact when they fit their words and too small otherwise |
| `CoinbaseConstraints.ReservationSuffices` | stratum-apps/src/coinbase_output_constraints.rs:94-105 | The reservation from the pool output alone covers whatever any mode builds for any standard miner script |
| `CoinbaseConstraints.ReservationNeedsRoom` | stratum-apps/src/coinbase_output_constraints.rs:94-105 | It does so for taproot and p2pkh miners if and only if the offsets do not overflow |
| `MinerTelemetry.MatchMiners` | stratum-apps/src/monitoring/miner_telemetry.rs:257-327 | The loops compute the per-downstream judgement whose meaning the lemmas below give |
| `MinerTelemetry.CountWorkers` | stratum-apps/src/monitoring/miner_telemetry.rs:263-271 | The map holds how often each non-empty worker name occurs |
| `MinerTelemetry.EachDownstreamJudgedOnce` | stratum-apps/src/monitoring/miner_telemetry.rs:257-327 | Each distinct downstream has one status and an IP exactly when matched, that of the single listing miner |
| `MinerTelemetry.MatchedKeys` | stratum-apps/src/monitoring/miner_telemetry.rs:273-324 | Statuses exist exactly for the given downstreams, and addresses only for those |
| `MinerTelemetry.MatchedExactlyWhenUnique` | stratum-apps/src/monitoring/miner_telemetry.rs:273-324 | Matched if and only if the name is non-empty and unique and exactly one miner lists it on the expected port |
| `MinerTelemetry.UnmatchedExactlyWhenUnlisted` | stratum-apps/src/monitoring/miner_telemetry.rs:273-324 | Unmatched if and only if there is no name, or it is unique and nobody lists it; matching never reports a fetch failure |
| `MinerTelemetry.SettledIsConsistent` | miner-apps/jd-client/src/lib/monitoring.rs:288-330 | The synchronous start of a refresh keeps telemetry implying an address and status Matched |
| `MinerTelemetry.SettledKeeps` | miner-apps/jd-client/src/lib/monitoring.rs:288-330 | What was known about a downstream still matched stays until its new fetch |
| `MinerTelemetry.Telemetry.Interfere` | miner-apps/jd-client/src/lib/channel_manager/mod.rs:858-874 | After any connects and disconnects during an await, of the old downstreams exactly those without a disconnect event are connected and new ones follow with fresh ids; a disconnected one has no entry in any map, those who stay keep theirs, and the maps are consistent |
| `MinerTelemetry.Telemetry.AwaitFetch` | miner-apps/jd-client/src/lib/monitoring.rs:344-349 | The address is written before the await; the maps are consistent there and after any connects and disconnects |
| `MinerTelemetry.Telemetry.FetchOne` | miner-apps/jd-client/src/lib/monitoring.rs:344-368 | The outcome is recorded for a downstream that stayed connected, others are untouched, and the maps stay consistent |
| `MinerTelemetry.Telemetry.FetchAll` | miner-apps/jd-client/src/lib/monitoring.rs:344-369 | The whole loop; dropped at any await it leaves consistent maps with the awaited address written and the earlier outcomes recorded |
| `MinerTelemetry.Telemetry.Refresh` | miner-apps/jd-client/src/lib/monitoring.rs:288-370 | For every refresh, every disconnect schedule and a drop at any await the maps are consistent at each await and at the end, telemetry is only held for connected downstreams, what was fetched is recorded for every survivor, and for those gone only an address or a `FetchFailed` status of a downstream matched by this refresh can be left |
| `MetricSelector.Display` | integration-tests/lib/prometheus_metrics_assertions.rs:321-336 | The loop prints the name and the labels with commas between them |
| `MetricSelector.ParseLabelBlock` | integration-tests/lib/prometheus_metrics_assertions.rs:341-356 | The loop builds the map of the block's pairs, a later one winning |
| `MetricSelector.MatchLine` | integration-tests/lib/prometheus_metrics_assertions.rs:285-312 | The checks compute what the selector makes of the line, as characterised below |
| `MetricSelector.BlockRoundTrip` | integration-tests/lib/prometheus_metrics_assertions.rs:321-356 | A printed label block reads back as its labels, with white space and `=` allowed in values |
| `MetricSelector.SpacedBlockReads` | integration-tests/lib/prometheus_metrics_assertions.rs:341-356 | A block with any white space around labels and equals signs reads as the same labels |
| `MetricSelector.NoPairIsSkipped` | integration-tests/lib/prometheus_metrics_assertions.rs:345-350 | A piece without an equals sign is passed over |
| `MetricSelector.MatchesExactly` | integration-tests/lib/prometheus_metrics_assertions.rs:285-336 | Any selector with a clean name gets the value of a printed line exactly when the names agree and the line's last value for each wanted key is the wanted one |
| `MetricSelector.PrintMatchRoundTrip` | integration-tests/lib/prometheus_metrics_assertions.rs:285-356 | With distinct keys, a selector matches a printed line if and only if the names agree and its labels are among the line's in any order, and it returns the line's value |
| `MetricSelector.ParseMetricValue` | integration-tests/lib/prometheus_metrics_assertions.rs:360-374 | The loop returns the first match among the lines that are not comments |
| `MetricSelector.ScrapeLookUp` | integration-tests/lib/prometheus_metrics_assertions.rs:360-374 | In a whole printed scrape with comments the lookup returns the value of the first series the selector stands for |

## Left out

- Weak memory ordering: atomics are sequentially consistent; a counter of 2^64 registrations is not modelled.
- A handler dropped without `done`, which panics in the source, is not a step of the machine.
- `JobDeclaratorClient::shutdown` waking its caller and `abort_all` after a timed-out join: neither is claimed.
- Sockets, handshakes, DNS, processes, HTTP handlers, command lines and logging: plumbing without a property of its own.
- Noise cryptography and the frame decoder's inside: a parameter of the reader.
- Socket reads smaller than what has arrived, other than by arriving later, and a reset that discards received bytes, which reads like those bytes never arriving.
- What the network answers to an attempt, whether a start succeeds and when a stop is requested: arbitrary functions given to the runtime.
- Base58, descriptors and key handling: which strings are addresses is a parameter; clean addresses contain no `/` and no `.`.
- The job declaration mode switches and channel rewiring between stages of the runtime: they do not affect which upstream is tried.
- Bounded channels and back-pressure of the connection tasks: channels are unbounded.
- Floating-point hashrates and metric values: integers in the gauges, values passed through unchanged in the selector.
- Scalar gauges and the summary of the snapshot, and agreement between the two reads of the server source.
- A cloned snapshot cache that keeps sharing its gauges with the original.
- The list of known rejection codes is a parameter of the snapshot rows, so any list satisfies the theorems.
- The standard library's heap is modelled as sift-up on push and textbook sift-down on pop, on a sequence instead of a mutable vector.
- Reuse of downstream ids, and races between two tasks inside one synchronous section of the telemetry refresh.
- The translator's own telemetry loop, which follows the same pattern.
- Micro-batching reports the first hit of each batch only; the rest of a batch after a hit is skipped in the source as well.
- The Bitcoin Core template retention policy, pagination, message classification, configuration getters and error texts: easy or not shown.
- NonceSearch.Miner.MineWindows: throttling, the kill flag and the sends of found shares are omitted; the list of batches says when the loop ends.
- Failover.Runtime.Shutdown: joining the template provider thread and the tasks, with a timeout and an abort, is omitted, because it has no effect on the state modelled.
- Decoder limits on script, list and witness sizes: a transaction larger than the library accepts is still decoded in the model.
