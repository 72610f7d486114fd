# MAVRouter: a verified model

MAVRouter forwards MAVLink messages between serial, UDP and TCP links. It learns which
link leads to which system from the traffic itself, drops duplicate copies that arrive
over redundant links, and keeps its tasks and configuration going. This project models
the state machines that do this and proves what they promise. Times are natural numbers
of milliseconds (seconds in the statistics window); system and component identifiers are
bytes; endpoint identifiers are natural numbers.

`dafny verify dfyconfig.toml` checks everything.

## What is modelled

| file | part of the router |
|---|---|
| `Basics.dfy` | bytes, clock, machine-word arithmetic, cardinality facts |
| `Groups.dfy` | endpoint groups |
| `FlatTable.dfy` | the routing table as one flat value: the specification of the next three |
| `Counting.dfy`, `ShardStore.dfy` | one shard: maps, endpoint counter, prune and eviction loops, capacity |
| `Routing.dfy`, `Statistics.dfy` | sixteen shards, the group configuration, table statistics |
| `History.dfy` | the table, the gate and the routing verdict as functions of the event log |
| `Pipeline.dfy` | filter, deduplication, gate, queue, batching and pruning, step by step |
| `Staleness.dfy` | what throttling and queueing cost, over whole runs |
| `Verdicts.dfy` | what that means for which messages are sent |
| `Updater.dfy`, `UpdaterRuns.dfy` | the updater task as a program over the sharded table, and as a part of the pipeline |
| `TimeWheel.dfy`, `SharedDedup.dfy` | deduplication: one wheel, then sixteen under separate locks |
| `Framing.dfy` | cutting a byte stream into frames |
| `StreamWriter.dfy` | the batching writer and lag accounting |
| `StatsWindow.dfy` | the pruned statistics window |
| `Supervision.dfy` | restarts with exponential backoff |
| `RunLoop.dfy` | the reload loop and its event traces |

## Main results

1. **The table is its log** (`History.TableIsItsLog`, `GateIsItsLog`, `VerdictIsItsLog`).
   For any order of updates, prunes and timestamps, an endpoint is in an entry exactly when
   an observation of it has no later prune that found the key too old. The update gate and
   the delivery verdict follow as statements about the log alone.
2. **Throttled, queued learning costs one second of TTL** (`Staleness.StalenessBound`). In
   every interleaving of ingress with the updater the table lies between two immediate,
   ungated tables: one with the same TTL, one with a TTL a second shorter. The bound is
   exact: it holds for every run iff the TTL is at least 999 ms (`OneSecondExactly`), and
   since the TTL is configured in whole seconds that means every TTL except zero. The
   updater task over the sharded table is such a run (`UpdaterRuns.ShardedStaleness`).
   Observations are dropped exactly when the queue is full or the updater gone
   (`Pipeline.DropsExactly`), and the updater can always catch up (`CanCatchUp`).
   Delivery is bracketed in the same way for every message to a system, and for a message
   to a component unless it falls back to the system in the lower of the two tables only
   (`Verdicts.VerdictBound`). For all groups and endpoints it is bracketed iff the sets of
   endpoints selected for the message are nested (`VerdictExactly`); two runs show that a
   known component overriding the fallback breaks either half.
3. **Sharding is invisible** (`Routing.RoutingTable`). Sixteen shards with incremental
   counters answer every query as the flat table does; counts equal a recount, never
   saturate, and the capacity branches cannot be reached.
4. **Deduplication is a sliding window** (`TimeWheel.SlidingWindow`), for one wheel, for
   every interleaving over sixteen (`SharedDedup.OneAcceptancePerWindow`), in real time
   (`RealTimeWindow`), and end to end (`Pipeline.AdmittedExactly`).
5. **No byte is lost silently** (`Framing`, `StreamWriter`). What a byte stream is cut into
   is a function of the decoders and the chunks, the reader computes it, and every piece is
   justified by the input received at some point: a start byte is skipped only if both
   decoders rejected it there, and bytes overflow only past 1 MiB (`OverflowExactly`). On the
   way out every message is received, lagged or unread, and what the writer loop does, down
   to which receives block and why it ends, is determined by the schedule
   (`ExecutionUnique`).
6. **The statistics window is a naive scan** iff the deque is partitioned at the cutoff
   (`StatsWindow`), **restarts are rate limited across resets**, with each delay in closed
   form (`Supervision`), and **the traces of the reload loop are exactly a regular language**
   (`RunLoop.TraceLanguage`).

## Where the code and its comments differ

The model follows the code.

- `needs_update_for_endpoint` is documented as "more than 1 second ago"; the code asks for
  an update at one second or more (src/routing/table.rs:227-251).
- `observe_route` is documented as a no-op for per-client TCP cores; the code forces
  learning on for them (src/endpoint_core.rs:151-161, 215-226). Here it is a parameter.
- `push` is documented as clearing a full buffer; the code drops only the oldest bytes that
  exceed the cap (src/framing.rs:57-80).
- `ShutdownStarted` is documented to fire once per session; a session whose configuration
  has no endpoints, and one whose signals have not ended it, emit none
  (src/run_loop.rs:125-127, 181-185).
- `aggregate` relies on timestamps that only increase; they come from the wall clock, which
  can step back (src/orchestration/stats_history.rs:59-65). With timestamps 100, 30, 35 and
  a window of 4 it misses a sample (`StatsWindow.SteppedClockMisses`). The suffix it
  finds is the naive scan iff the deque has only older samples before some point and none
  older after it (`StatsHistory.PartitionPoint`).
- `set_endpoint_group` never removes an endpoint from a former group, so an endpoint that
  left a group can go on serving it. The verdict is the intended one for all entries and
  endpoints iff no endpoint has left a group that still has another member
  (`Groups.IntendedExactly`); registration happens once per endpoint at startup, where that
  holds.

## Model

| member | source | states |
|---|---|---|
| `Groups.ConfigureIsHistory` | src/routing/table.rs:113-121 | Both group maps are read off the registration history: current name, and ever a member. |
| `Groups.ReachesIsHistory` | src/routing/groups.rs:32-44 | For any history, an entry reaches an endpoint iff it holds that endpoint or one ever registered in the endpoint's current group. |
| `Groups.GroupSharesVerdict` | src/routing/groups.rs:32-44 | Endpoints now in one group get the same verdict from every entry. |
| `Groups.IntendedExactly` | src/routing/groups.rs:32-44 | For every entry and endpoint the verdict is that the entry holds the endpoint or one that shares its group now, iff no endpoint has left a group that still has another member. |
| `Groups.RegisteredOnceVerdict` | src/routing/groups.rs:32-44 | In particular it is the intended one when each endpoint is registered at most once, as at startup. |
| `FlatTable.CoveredStep` | src/routing/table.rs:178-222 | An observation no older than the table keeps every component route covered by a no-older system route with all its endpoints. |
| `FlatTable.CoveredRemovals` | src/routing/shard.rs:67-143 | TTL prune and removal of a system keep that cover, in any order of timestamps. |
| `FlatTable.CoveredRouting` | src/routing/table.rs:286-303 | Under the cover, delivery to a component implies delivery to its system, and no component route is unreachable. |
| `FlatTable.GroupRoutesAlike` | src/routing/table.rs:265-304 | Non-sniffing members of one group get the same verdict on every message, for any table and registration history. |
| `Counting.ExactKeys` | src/routing/table.rs:328-330 | With exact counts, the counter's keys are the endpoints that occur in the shard. |
| `Counting.ChargeTracksTouch` | src/routing/table.rs:178-222 | The conditional increment moves the count by exactly the change in occurrences. |
| `Counting.Tally` | src/routing/shard.rs:74-79 | Adds one per endpoint of a removed entry, and nothing else. |
| `Counting.RetainUnexpired` | src/routing/shard.rs:71-91 | The retain loop keeps exactly the unexpired entries, and tally plus remaining occurrences is conserved. |
| `Counting.Settle` | src/routing/shard.rs:93-101 | Subtracts the tally per endpoint and leaves no zero counts. |
| `Counting.Discharge` | src/routing/shard.rs:117-125 | Takes one from each endpoint of a removed entry and leaves no zero counts. |
| `ShardStore.LocatedSize` | src/routing/shard.rs:29-39 | A shard holds at most 4096 routes and 16 systems, by pigeonhole on byte keys. |
| `ShardStore.CapsUnreachable` | src/routing/table.rs:162-176 | The capacity branches leave any well-located shard unchanged: an update never prunes or evicts. |
| `ShardStore.EvictionKeepsCap` | src/routing/shard.rs:104-143 | For every system cap of at least one, eviction before the update keeps the system count within the cap. |
| `ShardStore.ReliefExactly` | src/routing/table.rs:162-176 | The capacity branches remove only entries seen over 60 s ago, when full of routes, and an oldest system with its routes, when full of systems; and in the first case all such entries. |
| `ShardStore.UpdateKeepsCover` | src/routing/table.rs:156-223 | A whole update, forced prune and eviction included, keeps component routes covered. |
| `ShardStore.Shard.constructor` | src/routing/shard.rs:53-64 | A new shard is empty with exact counts. |
| `ShardStore.Shard.CountsBounded` | src/routing/table.rs:196-199 | Counts stay at most 4112, so the saturating arithmetic never saturates. |
| `ShardStore.Shard.Prune` | src/routing/shard.rs:67-102 | The pruned shard is the flat prune of the old one, with counts again equal to a recount. |
| `ShardStore.Shard.FindOldest` | src/routing/shard.rs:107-110 | Finds a system with minimal last-seen time. |
| `ShardStore.Shard.DropComponents` | src/routing/shard.rs:127-142 | Removes exactly one system's component routes and keeps counts exact. |
| `ShardStore.Shard.RemoveOldestSystem` | src/routing/shard.rs:106-143 | Removes some oldest system with all its component routes and keeps counts exact; an empty shard is unchanged. |
| `ShardStore.Shard.Record` | src/routing/table.rs:178-222 | Records one observation in both maps and keeps counts exact. |
| `ShardStore.Shard.Update` | src/routing/table.rs:156-223 | Capacity relief, then the observation; counts stay exact and keys stay in the shard. |
| `Routing.PruneByOneClock` | src/routing/table.rs:307-312 | With one clock reading the sharded prune is the flat prune. |
| `Routing.SliceObserve` | src/routing/table.rs:87-93 | An observation changes only its own shard's slice, and that slice as if it were the whole table. |
| `Routing.SlicePruneBy` | src/routing/table.rs:307-312 | The sharded prune acts on each slice as that shard's prune at its own clock reading. |
| `Routing.RoutingTable.constructor` | src/routing/table.rs:79-84 | Sixteen distinct empty shards represent the empty flat table. |
| `Routing.RoutingTable.Update` | src/routing/table.rs:156-223 | The shards again represent one flat table: the old one with the observation added, whatever the forced-prune clock. |
| `Routing.RoutingTable.Prune` | src/routing/table.rs:307-312 | The shards represent the old flat table with each key judged by its own shard's clock reading. |
| `Routing.RoutingTable.IsSnifferEndpoint` | src/routing/table.rs:131-148 | Answers as the flat table does. |
| `Routing.RoutingTable.NeedsUpdateForEndpoint` | src/routing/table.rs:229-255 | Answers as the flat table does. |
| `Routing.RoutingTable.ShouldSend` | src/routing/table.rs:265-304 | Answers as the flat table does. |
| `Routing.RoutingTable.Stats` | src/routing/table.rs:320-341 | Totals are the flat table's numbers of systems, of routes, and of distinct endpoints; the sums never saturate. |
| `History.KeysIndependent` | src/routing/table.rs:178-222 | Each key evolves as if it were the only one. |
| `History.TableIsItsLog` | src/routing/shard.rs:67-102 | For any log, an endpoint is in an entry iff one of its observations has no later prune that removes the key; the entry carries the last observation's time. |
| `History.GateIsItsLog` | src/routing/table.rs:229-255 | The gate is shut iff component and system are both known through this endpoint and were both observed less than 1000 ms ago. |
| `History.VerdictIsItsLog` | src/routing/table.rs:265-304 | Delivery as a statement about the log: sniffer, broadcast, or a surviving observation by this endpoint or its group, with fallback to the system. |
| `History.OrderedLogCovered` | src/routing/table.rs:178-222 | A log in time order leaves no component route without its system. |
| `History.UnorderedLogCanOrphan` | src/routing/table.rs:178-222 | Out of time order it can: a concrete log, for every TTL, after which a live component gets no messages. |
| `History.OrphansExactly` | src/routing/shard.rs:67-91 | For any log: no later prune can orphan a component iff every known component has a known system observed no earlier. |
| `History.ObservationsOnlyAdd` | src/routing/table.rs:178-222 | Extending an ordered log by observations only adds endpoints and recency. |
| `Pipeline.AlwaysConsistent` | src/endpoint_core.rs:159-204 | In every reachable state: table is the replay of what was applied, applied plus pending is what was committed, counters balance, queue and batch within bounds. |
| `Pipeline.Conservation` | src/orchestration/updater.rs:40-69 | In every run: needed = dropped + queued + in batch + applied; applied is a prefix of committed in order; the table is its replay. |
| `Pipeline.IngressExactly` | src/endpoint_core.rs:159-204 | In every run: an admitted frame that its endpoint learns from and the table needs is enqueued, last, exactly while the queue has room and the updater lives, and dropped otherwise; nothing else is enqueued or dropped. |
| `Pipeline.DropsExactly` | src/endpoint_core.rs:182-202 | Over whole runs the counters are the number of such frames, and of those that met a full queue or a stopped updater. |
| `Pipeline.IdealExactly` | src/endpoint_core.rs:106-180 | The immediate table hears of exactly the frames of real systems that passed filter and deduplication at a learning endpoint. |
| `Pipeline.AppliedExactly` | src/orchestration/updater.rs:40-69 | A tick prunes exactly if nothing is pending, an update applies the oldest pending observation, and no other step applies anything. |
| `Pipeline.CanCatchUp` | src/orchestration/updater.rs:40-69 | No deadlock: after any run, an updater that has not been cancelled has steps that empty batch and queue, and drop nothing. |
| `Pipeline.StoppedForGood` | src/orchestration/updater.rs:43-46 | After cancellation no step changes table or queue. |
| `Pipeline.Provenance` | src/endpoint_core.rs:106-204 | Every endpoint in every entry came from a frame with a nonzero system id that passed its filter and deduplication. |
| `Pipeline.WheelsAreShared` | src/endpoint_core.rs:147-149 | The pipeline's deduplicator is a run of the shared one on the frames that passed the filter. |
| `Pipeline.OneCopyPerWindow` | src/endpoint_core.rs:106-149 | Two admitted frames with one hash, from any endpoints, are at least a full wheel of rotations apart. |
| `Pipeline.AdmittedExactly` | src/endpoint_core.rs:106-149 | In every run a frame is admitted iff its system is not 0, its filter passes it, and no copy was admitted less than a full wheel of rotations ago. |
| `Staleness.CommittedBelowImmediate` | src/endpoint_core.rs:159-204 | The gated log never knows more than the ungated one with the same TTL. |
| `Staleness.ImmediateBelowCommitted` | src/endpoint_core.rs:159-204 | Without drops the gated log is less than a second behind the ungated one with a TTL a second shorter. |
| `Staleness.StalenessBound` | src/orchestration/updater.rs:40-69 | In every run with a nondecreasing clock: every key and endpoint of the table is in the immediate table, no more recent; and without drops, whenever nothing is pending, every key and endpoint of the immediate table with a TTL one second shorter is in the table, less than a second behind. |
| `Staleness.ShortTtlForgets` | src/routing/table.rs:229-255 | For every TTL below 999 ms, a concrete run in which the gate hides a refresh from the prune. |
| `Staleness.OneSecondExactly` | src/routing/table.rs:229-255 | The lower half holds for all configurations and runs iff the TTL is at least 999 ms, with the shorter TTL exactly 1000 ms shorter. |
| `Staleness.NeverOrphaned` | src/routing/table.rs:286-303 | In every run with a nondecreasing clock, what is sent for a component is sent for its system, and every component route delivers. |
| `Verdicts.AudienceDecides` | src/routing/table.rs:265-304 | Of two tables, one within the other, the lower sends nothing the upper would not, for all groups and endpoints, iff the message is a broadcast or the endpoints selected for it are nested. |
| `Verdicts.VerdictExactly` | src/routing/table.rs:265-304 | In every run with a nondecreasing clock, each half of the staleness bound carries over to the verdicts on a message under exactly that condition. |
| `Verdicts.VerdictBound` | src/routing/table.rs:265-304 | It does for every broadcast or message to a system, and for every component that the lower table knows or the upper one does not. |
| `Verdicts.QueuedComponentFallsBack` | src/routing/table.rs:286-303 | The upper half fails for other components: while an observation is queued, for every TTL, the gated table falls back to an endpoint the immediate table would not use. |
| `Verdicts.PrunedComponentFallsBack` | src/routing/table.rs:286-303 | So does the lower half: with a TTL of 5 s the shorter-lived table forgets a component and falls back to an endpoint the gated table would not use. |
| `Updater.PassKeepsOrder` | src/orchestration/updater.rs:40-69 | One pass of the select keeps arrivals in order and prunes behind everything that had arrived. |
| `Updater.ServedInOrder` | src/orchestration/updater.rs:40-69 | So do all passes: log plus queue is what arrived, and each prune of the log was due and came when nothing was queued. |
| `Updater.RoutingUpdater.Collect` | src/orchestration/updater.rs:47-61 | Takes the first 256 queued observations, or all of them, in order. |
| `Updater.RoutingUpdater.ApplyAll` | src/orchestration/updater.rs:62-64 | The sharded table represents the replay of the log extended by the batch. |
| `Updater.RoutingUpdater.Pass` | src/orchestration/updater.rs:41-69 | Cancellation, then up to 256 updates, then the prune tick, which leaves exactly the entries seen within the TTL; the table stays the replay of the log. |
| `Updater.RoutingUpdater.Run` | src/orchestration/updater.rs:32-71 | Over any wake-ups the sharded table is the replay of the log those wake-ups determine, up to the first cancellation. |
| `UpdaterRuns.PassRuns` | src/orchestration/updater.rs:40-69 | Each pass of the updater task is a run of receive, seal, update, prune or cancel steps of the pipeline, with the same log and queue after it. |
| `UpdaterRuns.ServedIsRun` | src/orchestration/updater.rs:32-71 | So are all passes, with any ingress between them: log applied and queue are those of a run of the pipeline. |
| `UpdaterRuns.ShardedStaleness` | src/orchestration/updater.rs:32-71 | The sharded table the updater task leaves is the table of that run, and both halves of the staleness bound hold of it. |
| `TimeWheel.BucketIsItsAge` | src/dedup.rs:159-201 | Each bucket holds exactly the hashes inserted when it was current. |
| `TimeWheel.SlidingWindow` | src/dedup.rs:116-201 | After any operations a hash is a duplicate iff some insertion of it is fewer than num_buckets rotations old. |
| `TimeWheel.RunShape` | src/dedup.rs:184-201 | The number of buckets never changes and the current index is always in range. |
| `TimeWheel.Dedup.constructor` | src/dedup.rs:54-94 | A new wheel has max(2, period / 100 ms) buckets, or none when disabled. |
| `TimeWheel.Dedup.IsDuplicate` | src/dedup.rs:116-124 | Answers the sliding-window question over the wheel's history. |
| `TimeWheel.Dedup.InsertHash` | src/dedup.rs:135-143 | Extends the history by an insertion. |
| `TimeWheel.Dedup.CheckAndInsertHash` | src/dedup.rs:312-327 | Answers for the history so far, and inserts only a new hash. |
| `TimeWheel.Dedup.RotateBucket` | src/dedup.rs:184-201 | Extends the history by a rotation; the index stays in range. |
| `SharedDedup.OwnWheel` | src/dedup.rs:276-305 | In every interleaving the answers to one hash are those of a single wheel run on its own steps. |
| `SharedDedup.OneAcceptancePerWindow` | src/dedup.rs:276-305 | A submission is rejected iff that hash was accepted fewer than num_buckets rotations of its shard ago. |
| `SharedDedup.AcceptancesApart` | src/dedup.rs:276-305 | Two acceptances of one hash are at least num_buckets rotations apart. |
| `SharedDedup.RealTimeWindow` | src/dedup.rs:65-73 | With a rotation every 100 ms and a period of P: suppressed for 100(N-1) > P - 200 ms, and for 100 ms in any case, and never more than max(P, 200) ms after an acceptance, timer lateness added. |
| `SharedDedup.ConcurrentDedup.constructor` | src/dedup.rs:233-255 | Sixteen distinct wheels represent the start of a shared run. |
| `SharedDedup.ConcurrentDedup.CheckAndInsert` | src/dedup.rs:276-291 | The sharded object is one step of the shared run, with its answer. |
| `SharedDedup.ConcurrentDedup.RotateBuckets` | src/dedup.rs:296-304 | A rotation of each shard in turn, one step each, so that every hash sees exactly one; nothing when disabled. |
| `Framing.ExplanationUnique` | src/framing.rs:93-168 | There is only one way to account for one parse of a buffer by justified pieces. |
| `Framing.DrainUnique` | src/endpoint_core/stream_loop.rs:78-80 | Nor for parsing it until it has to wait. |
| `Framing.CutsConserve` | src/framing.rs:93-168 | The pieces cut off a buffer and what is left are exactly the buffer. |
| `Framing.StreamConserves` | src/framing.rs:64-168 | Over any chunks, the pieces of the stream and the final buffer are exactly the input. |
| `Framing.EveryPieceJustified` | src/framing.rs:64-168 | Every piece of the stream is what the parser had to do with the input received up to some chunk, at the offset its predecessors fill: frames are contiguous, in order and disjoint, and a start byte is skipped only if both decoders rejected it. |
| `Framing.OverflowExactly` | src/framing.rs:64-80 | Over any stream, bytes overflow exactly at the chunks that would take a nonempty buffer past 1 MiB. |
| `Framing.OverflowIsExcess` | src/framing.rs:64-80 | What overflows there is exactly the excess, oldest bytes first, or all there is. |
| `Framing.FramesOfParse` | src/framing.rs:93-168 | A parse emits at most one frame: its last piece. |
| `Framing.StreamParser.Push` | src/framing.rs:64-80 | Keeps everything while it fits in 1 MiB; otherwise keeps the newest 1 MiB, or the chunk if that is larger, and enters what it drops in the ledger. |
| `Framing.StreamParser.SkipNoise` | src/framing.rs:99-110 | Skips up to the first 0xFD or 0xFE, or everything. |
| `Framing.StreamParser.Decode` | src/framing.rs:112-165 | Version 2, then version 1, then wait if either is truncated, else reject the start byte. |
| `Framing.StreamParser.ParseNext` | src/framing.rs:93-168 | Terminates with the unique explanation of the buffer, and returns the frame it ends with; the rest of the input stays buffered. |
| `Framing.StreamParser.Drain` | src/endpoint_core/stream_loop.rs:78-80 | Adds the one draining of the buffer to the ledger, emits exactly its frames in order, and leaves what has to wait. |
| `Framing.StreamParser.ReadChunk` | src/endpoint_core/stream_loop.rs:68-81 | A chunk displaces the oldest bytes beyond 1 MiB and is drained; buffer at most 1 MiB or the chunk. |
| `Framing.StreamParser.Read` | src/endpoint_core/stream_loop.rs:68-81 | Over any chunks: all of them become input, ledger and buffer are those of the stream, what is emitted is the frames added, the buffer has to wait and stays within 1 MiB if the chunks do. |
| `StreamWriter.NothingUnaccounted` | src/endpoint_core/stream_loop.rs:92-109 | Received + lagged + unread = published since subscription, after every attempt. |
| `StreamWriter.BusOrder` | src/endpoint_core/stream_loop.rs:128-151 | Messages are received in bus order, each at most once. |
| `StreamWriter.ReceiveExactly` | src/endpoint_core/stream_loop.rs:92-109 | With up to the bus capacity unread an attempt gets the next message; beyond it, it is told of a lag and loses exactly the excess. |
| `StreamWriter.LossExactly` | src/endpoint_core/stream_loop.rs:92-109 | Nothing is lost iff the receiver never falls more than the capacity behind. |
| `StreamWriter.GotExactly` | src/endpoint_core/stream_loop.rs:128-151 | The count of received messages is the number of attempts that got one. |
| `StreamWriter.DeliveredIsSent` | src/endpoint_core/stream_loop.rs:114-124 | Every message received, passed and writable is sent, in order of receipt. |
| `StreamWriter.SentIsDelivered` | src/endpoint_core/stream_loop.rs:114-124 | Nothing else is sent. |
| `StreamWriter.AgreesStep` | src/endpoint_core/stream_loop.rs:118-124 | One receive with its check and write does what the plain loop does. |
| `StreamWriter.Batch` | src/endpoint_core/stream_loop.rs:126-153 | A batch agrees with the plain loop attempt by attempt; it makes at most 1024 attempts, and ends before that exactly at an empty or closed bus or a failed write. |
| `StreamWriter.Deliver` | src/endpoint_core/stream_loop.rs:118-160 | A message to send, its batch and its flush: afterwards everything written is flushed, or the exit says why not. |
| `StreamWriter.WriterLoop` | src/endpoint_core/stream_loop.rs:89-162 | For any schedule: the blocking receives, the end and the reason for it that the schedule determines; the plain loop's bytes, exact msgs_out, bytes_out and bus_lagged; nothing unflushed on an empty bus, and at most one receive and one batch of attempts since everything sent was flushed. |
| `StreamWriter.ExecutionUnique` | src/endpoint_core/stream_loop.rs:89-162 | Which receives block, where the loop ends and why are determined by the schedule: no two executions differ. |
| `StreamWriter.ExitsObeyed` | src/endpoint_core/stream_loop.rs:89-125 | A blocking receive that finds cancellation or a closed bus, and a failed write, end the loop there with that exit. |
| `StreamWriter.FlushObeyed` | src/endpoint_core/stream_loop.rs:155-160 | A flush that fails ends the loop there. |
| `StatsWindow.KeptIsSince` | src/orchestration/stats_history.rs:33-47 | In time order the deque is exactly the samples within the retention time. |
| `StatsWindow.NeverEmptied` | src/orchestration/stats_history.rs:33-47 | For arbitrary timestamps a push keeps the newest sample, last. |
| `StatsWindow.SuffixIsSinceExactly` | src/orchestration/stats_history.rs:60-65 | A suffix of the deque is the naive scan since a cutoff iff everything before it is older and nothing in it is. |
| `StatsWindow.SteppedClockMisses` | src/orchestration/stats_history.rs:59-65 | With a clock that steps back, no suffix is right: three timestamps and a window. |
| `StatsWindow.StatsHistory.Push` | src/orchestration/stats_history.rs:33-47 | The pruning loop leaves what the retention function says, never nothing. |
| `StatsWindow.StatsHistory.PartitionPoint` | src/orchestration/stats_history.rs:60-65 | For any timestamps: the suffix found is the naive scan since the cutoff iff the deque is partitioned at the cutoff, and it is not empty when the newest sample is recent enough. |
| `StatsWindow.StatsHistory.Fold` | src/orchestration/stats_history.rs:78-102 | Count, average, minimum and maximum of a nonempty window, the average between the other two; the guard against an empty fold never fires. |
| `StatsWindow.AverageAdds` | src/orchestration/stats_history.rs:80-96 | Average times count is the routes of a lone sample, and grows by exactly the routes of each further sample. |
| `StatsWindow.StatsHistory.Aggregate` | src/orchestration/stats_history.rs:52-103 | Nothing iff nothing was pushed; the naive scan of the deque whenever it is partitioned at the cutoff; in time order the naive scan over everything ever pushed, back to the window or the retention time, whichever is shorter. |
| `Supervision.BackoffStates` | src/endpoint_core/backoff.rs:35-50 | The delay is always 1, 2, 4, 8, 16 or 30 seconds. |
| `Supervision.DebtBalance` | src/orchestration/supervisor.rs:20-59 | Potential argument: elapsed time plus debt grows by 18 s a restart, across resets. |
| `Supervision.RestartRate` | src/orchestration/supervisor.rs:20-59 | Any n consecutive restarts, anywhere in any run, take at least 18 n - 59 seconds. |
| `Supervision.RestartRateTight` | src/orchestration/supervisor.rs:20-59 | Five immediate failures reach the bound exactly. |
| `Supervision.RestartDelay` | src/orchestration/supervisor.rs:22-48 | The delay in closed form: 1 s doubled with each run since the last that lasted over 60 s, up to 30 s. |
| `Supervision.Supervise` | src/orchestration/supervisor.rs:15-60 | Each restart is its run and its delay, in that closed form, after the one before, until the first cancellation. |
| `RunLoop.SessionsAreChain` | src/run_loop.rs:154-306 | Every run is a chain of sessions: a successor iff the reload succeeded, running exactly the validated configuration; no endpoints ends it. |
| `RunLoop.EveryChainRuns` | src/run_loop.rs:154-306 | Conversely every such chain is a run. |
| `RunLoop.TraceLanguage` | src/run_loop.rs:112-128 | A trace is emitted by some run iff the session automaton reads it and ends while serving or after a final shutdown. |
| `RunLoop.ChainTrace` | src/run_loop.rs:112-128 | The automaton ends where the last session of the chain ends. |
| `RunLoop.OneMoreSignal` | src/run_loop.rs:213-306 | The nested loops are a flat machine: each signal adds its own events until a session has ended for good. |
| `RunLoop.OpenExactly` | src/run_loop.rs:213-306 | A run is still open iff every signal was a hangup and every configuration loaded has an endpoint or a TCP port. |
| `RunLoop.ServeSession` | src/run_loop.rs:213-268 | The inner loop emits the skipped reloads and the closing events of one session and hands on the new configuration. |
| `RunLoop.RunWithSignals` | src/run_loop.rs:143-307 | Events, configurations run and outcome are those of the sessions the signals determine; a session is served iff its configuration has an endpoint or a TCP port; a failed first load emits nothing. |

## Left out

- Sockets, serial ports, TLog files, the stats socket, logging, TOML parsing and signal wiring: replaced by abstract inputs and outputs.
- The mavlink crate's frame decoding and checksum are not part of this model; the two decoders are functions that consume between one and all of the bytes they are given. Nothing is claimed about chunking not mattering, or about a frame being minimal.
- The hash of a payload, the incoming and outgoing filters and the target extraction: given values or functions.
- Publishing to the bus and the source check of `check_outgoing`: one branch each; the writer takes the outgoing verdict of each message as given.
- Staleness.StalenessBound: the poll that finds the queue empty and the prune that follows are one step, the prune reads one clock, and one frame's deduplication, clock reading, gate and enqueueing are one step. Finer interleavings of those, and the runtime's cooperative yielding, are not covered.
- UpdaterRuns.ServedIsRun: ingress runs between the passes of the updater task, not inside one; Pipeline.Conservation and Staleness.StalenessBound cover every interleaving.
- Pipeline.Conservation: the end of the updater when all senders are gone is the same step as cancellation.
- Supervision.RestartRate: whole milliseconds and an integer factor of 2, which the floating-point factor equals on the values used.
- StatsWindow.StatsHistory.Aggregate: the average is a real quotient, without floating-point rounding, and the sum of route counts is unbounded.
- StreamWriter.WriterLoop: a failed write counts as no bytes; the buffered writer's own early flushes, and what its destructor does after an exit without a flush, are not described.
- Routing.RoutingTable.Prune: shards are pruned one after another in one call; readers between two shards, locks and the atomic configuration snapshot are not modelled. The modulus 16 stands for the bit mask 15.
- Configuration merging and validation, UDP peer switching, baud cycling, TCP client limits, shutdown timeouts and task abortion.
