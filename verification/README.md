# Packet-split tunnel: a verified model

SlipStream-Plus cuts one client connection into numbered frames, spreads them over many unreliable tunnels and
puts them back in order at the other end, in both directions.  This project models that protocol in Dafny and
proves what it delivers.  `dafny verify dfyconfig.toml` checks the whole project.

## How it is organised

| part | files | what is proved |
|---|---|---|
| Reorder buffer | `Reorder`, `ReorderGaps`, `Reorderer` | order, at-most-once, refinement of the maximal contiguous run, safety and progress of gap skipping; the class refines the functions |
| Central server | `Server`, `WriteQueue`, `LateConnect`, `Dispatch`, `Sending`, `ConnState`, `CentralServer` | a state machine over critical sections, its lifecycle and queue invariants, confluence of a late upstream, the rotation over iterated sends; classes whose methods refine its steps |
| Both ends | `Tunnel`, `History`, `EndToEnd`, `Limits` | theorems over every run of clients, network and server; what the fields of its states mean in terms of the run's events |
| Client side | `Splitter`, `Pool`, `Uplink`, `Failover` | numbering, routing, the two relay loops, failover, pool refresh, and the relay composed with its pool |
| Schedulers | `Modular`, `Scheduler`, `Balancer` | exact fairness, and agreement of the two weighted round-robins |
| Wire | `Codec`, `Wire` | framed stream round trip, SYN payloads, target addresses; loops over buffers and readers refine the codec |
| Users | `Admission`, `Users`, `Metering` | run-level admission invariants, byte charging |
| Shared | `Basics`, `Lists` | bytes, 32-bit counters, list operations |

The network is a set of frames that were sent: a frame may arrive any number of times, at any time, over any
tunnel, or never.  Server goroutines interleave at their critical sections, and a handler may hold on to a
connection state that has left the table.  Clock readings, socket results, dial results, instance health and
ping are inputs.  The sequence of calls made on a reorder buffer determines its state, so "in every run" there
means for every sequence of inserts and `Next` calls with every clock.

## Where the code does less than its comments or callers suggest

The model does what the code does; each of these is a proved statement.

- Sequence numbers are `uint32` and compared with `<`: all runs fed from a stream deliver it in increasing order,
  each chunk at most once, if and only if its numbers stay below 2^32-1 (`EndToEnd.StreamOrderIff`); a longer one
  can have its last chunk delivered twice (`EndToEnd.LongStreamBreaksOrder`).  The end-to-end theorems therefore
  speak of fewer than 2^32 frames per direction.
- `Next` returns nil both for "nothing ready" and for an empty frame.  A drain ends with a frame ready if and only
  if it runs into an empty frame and the frame after that is buffered (`ReorderGaps.DrainStallsIff`,
  `ReorderGaps.EmptyFrameStallsDrain`).  A connection's frames are drained whole, whatever the arrival and
  whenever its upstream becomes ready, if and only if their contiguous run has no empty frame before its end
  (`LateConnect.AlwaysWholeIff`); `Limits.EmptyFrameDelaysFlush` has a list with two ready times and two logs.
- A handler pushes to the write queue after releasing the lock.  On a connection whose handlers have not overlapped
  so far, every continuation by pushes and takes after a drain keeps the queue in order if and only if the drain did
  not overlap with a handler still pushing (`EndToEnd.QueueOrderIff`, `WriteQueue.DrainKeepsOrderIff`); a run that
  breaks the order exists (`Limits.OverlapSwapsChunks`).
- `cmd/centralserver/upstream.go:149` says that the initial flush will not block.  It does not, but of a batch
  only what fits the 256 places of the channel is kept, the rest is lost (`WriteQueue.OfferKeepsWhatFits`).
- A SYN that arrives after its connection was removed recreates it.  If the client is still listening, the two
  upstream streams mix (`Limits.RecreationMixesStreams`).  Order and at-most-once hold even then
  (`EndToEnd.ReverseOrder`); that the chunks come from one stream needs that the client heard one state.
- A dead source stays in a connection's list if and only if it was listed there twice (`Server.DeathIsExact`),
  which a repeated SYN brings about (`Limits.DeadSourceStaysListed`).
- `removeConn` cancels a state only after it has released the lock.  A state is current or cancelled if and only if
  no such removal still owes its cancel (`EndToEnd.CurrentOrCancelledIff`); in between it is neither
  (`Limits.LeftUncancelled`).
- A tunnel whose first ConnID has top byte 0x05 is taken for SOCKS and none of its frames is read
  (`Codec.StreamRoundTrip`).
- A first frame that announces more than 8192 bytes is skipped without its payload, and reading goes on right after
  its header (`Codec.OversizedFirstIsSkipped`).
- A frame above 8192 bytes cannot be written; sending one closes every connection of the instance
  (`Pool.TunnelPool.SendFrame`).  `internal/config/config.go:149-151` does not keep the chunk size below that.
- The two schedulers weigh an instance without a ping differently; their weights agree if and only if the
  largest ping is below 2 * (MaxInt64 / 2) or every ping is positive (`Scheduler.WeightsAgreeIff`), and with more
  than one instance their picks agree forever exactly then (`Scheduler.SchedulersAgreeIff`).
- Admission checks and marks in two critical sections: with P handshakes pending at once up to
  `ipLimit + P - 1` IPs get in, and that many can (`Admission.IpLimitHolds`, `Admission.OverlapExceedsLimit`).
- For the same reason the cooldown after a close is kept by every continuation if and only if no handshake of that
  IP was pending at the close (`Admission.CooldownHoldsIff`); with one pending, the IP can be back at the very time
  it left (`Admission.ReadmittedAtOnce`).
- A rate-limited user is charged twice for packet-split traffic (`Metering.RelayPacketSplit`).

## Model

| member | source | states |
|---|---|---|
| Reorder.IncreasingIffNoWrap | internal/tunnel/reorder.go:31-77 | in every run frames are consumed in strictly increasing order, each at most once, if and only if the largest number is consumed at most last |
| Reorder.WrapRedelivers | internal/tunnel/reorder.go:32-45 | a concrete run in which the wrap-around of the counter breaks the order |
| EndToEnd.StreamOrderIff | internal/tunnel/reorder.go:31-92 | for every start, stream and first number: all runs fed from the stream hand out increasing numbers if and only if the stream ends before the largest number |
| EndToEnd.LongStreamBreaksOrder | internal/tunnel/reorder.go:32-92 | every longer stream has a run in which the chunk with the largest number is delivered twice |
| Reorder.RunFromInserts | internal/tunnel/reorder.go:31-77 | everything buffered or consumed was inserted with that number and payload |
| Reorder.BufferHoldsLatest | internal/tunnel/reorder.go:31-36 | what is buffered under a number is the payload of the last insert of that number |
| Reorder.ExpiryTakesLowest | internal/tunnel/reorder.go:66-92 | giving up on a gap moves to the lowest buffered frame, consumes exactly it and keeps all others |
| Reorder.RefinesContiguous | internal/tunnel/reorder.go:31-46 | without a gap timeout the consumed frames are a prefix of the maximal contiguous run of the inserted set, and all of it if and only if nothing is ready, for every permutation, duplication and interleaving |
| Reorder.ContiguousIsMaximal | internal/tunnel/reorder.go:38-46 | the reference: consecutive frames from the start number, ending at the first one missing |
| Reorder.Confluence | internal/tunnel/reorder.go:31-46 | two drained timeout-free runs over the same frames consumed the same log |
| ReorderGaps.TimerWitness | internal/tunnel/reorder.go:48-64 | a running timer was started by a call that saw the number missing with later data buffered, and nothing was consumed and the number did not move since |
| ReorderGaps.SkipIsJustified | internal/tunnel/reorder.go:54-92 | a number is given up only if an earlier call, at least 2 s before, saw it missing with later data buffered; no buffered frame is lost by it |
| ReorderGaps.ShortRunsDoNotSkip | internal/tunnel/reorder.go:61-64 | a run whose clock readings fall within two seconds never skips |
| ReorderGaps.DrainIsRun | cmd/centralserver/upstream.go:137-143 | a drain loop is a run of `Next` calls, so all run properties hold for it |
| ReorderGaps.DrainStallsIff | cmd/centralserver/upstream.go:137-143 | a drain ends with a frame ready if and only if, from `nextSeq` or from the lowest frame when the timer has expired, it runs over non-empty frames into an empty one whose successor is buffered |
| ReorderGaps.EmptyFrameStallsDrain | internal/tunnel/reorder.go:39-46 | inserting an empty frame and its successor brings that about |
| ReorderGaps.DrainCalls | internal/tunnel/splitter.go:138-151 | a drain calls `Next` at most once more than there are buffered frames |
| ReorderGaps.DrainConserves | internal/tunnel/splitter.go:138-151 | frames leave the buffer in a drain only by being delivered, in order, and nothing is left ready |
| ReorderGaps.DrainGaps | internal/tunnel/reorder.go:38-92 | a drain closes one gap if it finds the timer expired and none otherwise |
| ReorderGaps.ExpiriesCloseGaps | internal/tunnel/reorder.go:54-92 | without further inserts, gaps left plus expiries equal the gaps at the start, and the buffer is empty exactly after as many expiries as there were gaps |
| ReorderGaps.GapsAreEventuallyPassed | internal/tunnel/splitter.go:138-151 | a buffer with G gaps is fully delivered, in order and unchanged, by G + 1 drains that each begin the timeout after the readings the earlier ones can have made, with exactly G expiries |
| Splitter.TicksDeliverEverything | internal/tunnel/splitter.go:136-157 | after whatever inputs, G + 1 spaced ticks without further frames and failing writes make the relay write every chunk it had buffered and leave nothing behind |
| ReordererImpl.Reorderer.constructor | internal/tunnel/reorder.go:15-29 | a new buffer is the empty run from its start number |
| ReordererImpl.Reorderer.Insert | internal/tunnel/reorder.go:31-36 | refines the insert step and extends the call history |
| ReordererImpl.Reorderer.SkipToLowest | internal/tunnel/reorder.go:80-92 | the scan finds the minimum buffered number, whatever order it visits the map in, and never moves back |
| ReordererImpl.Reorderer.Next | internal/tunnel/reorder.go:38-77 | refines the next step: value, buffer, counter and timer |
| ReordererImpl.Reorderer.DrainAll | cmd/centralserver/upstream.go:284-291 | the loop terminates and collects exactly the non-empty chunks of a drain |
| Server.LifecycleStep | cmd/centralserver/server.go:205-289 | every step, the two halves of `removeConn` taken separately, keeps: each state ever created is the current entry of its ConnID or has left the table; only such states are cancelled and they stay so; no step replaces a live entry |
| Server.KeptStep | cmd/centralserver/server.go:114-289 | after a step a state is current or cancelled if and only if it is new, or it was so before or is cancelled now, and the step is not the first half of its removal |
| Server.DeathIsExact | cmd/centralserver/server.go:114-153 | which served connections survive the clean-up, that these keep a source, and exactly when the dead one is still listed |
| Server.DeathOneByOne | cmd/centralserver/server.go:119-148 | the identifiers can be cleaned up one by one in any order |
| Server.SweepOneByOne | cmd/centralserver/server.go:228-257 | so can the connections of a clean-up tick or of the final closing |
| WriteQueue.DrainLog | cmd/centralserver/upstream.go:283-292 | a drain appends exactly its frames to the connection's log |
| WriteQueue.QueueStep | cmd/centralserver/upstream.go:292-301 | every event keeps: the waiting batches together follow the log; while no two handlers overlapped, what was pushed and what is about to be pushed is an in-order selection of the log |
| WriteQueue.OverlapSchedule | cmd/centralserver/upstream.go:292-301 | with two handlers waiting, a schedule of takes and pushes breaks the order, however full the queue is |
| WriteQueue.DrainKeepsOrderIff | cmd/centralserver/upstream.go:283-301 | on a connection that has not overlapped, every schedule after a drain keeps the order if and only if no handler was still pushing or the drain found nothing |
| WriteQueue.OfferKeepsWhatFits | cmd/centralserver/upstream.go:149-155 | the channel keeps the first chunks up to its capacity and loses the rest |
| WriteQueue.PushAllIsSettled | cmd/centralserver/upstream.go:295-301 | pushing chunk by chunk equals offering the batch at once |
| LateConnect.AlwaysWholeIff | cmd/centralserver/upstream.go:131-144 | every arrival and every ready time without a gap timeout gives the whole contiguous run, if and only if the frames' contiguous run has no empty frame before its end |
| LateConnect.ReadyTimeDoesNotMatter | cmd/centralserver/upstream.go:131-144 | for such frames and without a gap timeout the drain log does not depend on how they arrive and when the upstream became ready |
| LateConnect.LateFlushStalls | cmd/centralserver/upstream.go:135-144 | for any other frames the flush after the last of them leaves frames ready |
| LateConnect.FinEnds | cmd/centralserver/upstream.go:304-341 | a FIN delivers what is ready, gives up one gap exactly if the timer has expired, and nothing is drained after it whatever arrives |
| Dispatching.DispatchIsARun | cmd/centralserver/server.go:205-219 | handling a frame without interference is a run of the state machine and keeps the lifecycle invariant |
| Dispatching.DispatchOutcome | cmd/centralserver/server.go:205-219 | what a frame leaves behind by its flags: a SYN that decodes, a listed identifier; a FIN or RST, a table without the identifier and a cancelled state; data, an unchanged table and the frame in the reorderer over a listed source |
| ConnStateImpl.ConnState.constructor | cmd/centralserver/upstream.go:48-54 | a new state expects the number after the SYN's and lists its source |
| ConnStateImpl.ConnState.HandleData | cmd/centralserver/upstream.go:258-301 | refines the data step followed by its pushes |
| ConnStateImpl.ConnState.UpstreamReady | cmd/centralserver/upstream.go:128-155 | refines the ready step followed by the flush |
| ConnStateImpl.ConnState.HandleFin | cmd/centralserver/upstream.go:312-336 | refines the FIN step followed by its pushes |
| ConnStateImpl.ConnState.PushChunks | cmd/centralserver/upstream.go:295-301 | the queue gains exactly the chunks that fit |
| ConnStateImpl.ConnState.NextSeq | cmd/centralserver/upstream.go:185-189 | reverse chunks take consecutive numbers |
| ConnStateImpl.ConnState.DropSource | cmd/centralserver/state.go:101-106 | removes the first occurrence of a source and nothing else |
| ConnStateImpl.ConnState.SendFrame | cmd/centralserver/state.go:81-113 | is one send of the iteration in `Sending`: who takes the frame, which sources remain and where the rotation stands |
| Sending.EachSourceTakesOne | cmd/centralserver/state.go:87-94 | of as many consecutive sends on a connection as it has sources, distinct and working, each source takes exactly one frame and the list stays as it is, from any connection state and with no index supplied |
| Sending.WorkingSourcesStay | cmd/centralserver/state.go:97-113 | a send succeeds if and only if some source works, is taken by a listed working source, and drops no working source |
| Sending.SendIsARun | cmd/centralserver/state.go:73-113 | a send is a run of the state machine: the snapshot, then one step for each source that failed |
| CentralServerImpl.CentralServer.HandleSyn | cmd/centralserver/upstream.go:15-60 | refines the SYN step on the table of all connections |
| CentralServerImpl.CentralServer.HandleData | cmd/centralserver/upstream.go:250-302 | changes the one connection as the data step says and no other |
| CentralServerImpl.CentralServer.HandleFin | cmd/centralserver/upstream.go:304-341 | drains the connection, then removes and cancels it |
| CentralServerImpl.CentralServer.RemoveConn | cmd/centralserver/server.go:265-275 | removes the entry and cancels its state; other entries stay |
| CentralServerImpl.CentralServer.CleanupSource | cmd/centralserver/server.go:114-153 | the loop over the served identifiers, in any order, refines the death step |
| CentralServerImpl.CentralServer.Cleanup | cmd/centralserver/server.go:221-289 | the clean-up tick and the final closing remove and cancel exactly the connections that have to go |
| CentralServerImpl.CentralServer.UpstreamReady | cmd/centralserver/upstream.go:128-155 | works on the state behind the pointer, also after it has left the table |
| CentralServerImpl.CentralServer.SendFrame | cmd/centralserver/state.go:73-114 | nothing happens without an entry; otherwise one send of the iteration in `Sending` on that entry only |
| CentralServerImpl.CentralServer.DispatchFrame | cmd/centralserver/server.go:205-219 | SYN before FIN before RST before data, each refining its step |
| Tunnel.ServerStep | cmd/centralserver/upstream.go:15-346 | every server step keeps the invariant of the whole system |
| Tunnel.ClientStep | internal/tunnel/splitter.go:56-198 | so does every client step |
| Tunnel.Reachable | cmd/centralserver/upstream.go:15-346 | hence it holds in every reachable world |
| History.FieldsAreHistory | cmd/centralserver/upstream.go:48-54 | in every run the creation time of a state is the time of the SYN that created it, its last activity the time of the last data frame or upstream chunk handled for it, or its creation, and it is connected if and only if its upstream came up |
| History.TickRemovesIff | cmd/centralserver/server.go:221-263 | in every run a tick removes and cancels a connection if and only if, by the events of the run, its upstream did not come up within 60 s, or it has no source more than 30 s after its creation, or its last use is more than 60 s ago; the others stay as they are |
| History.CloseAllEmpties | cmd/centralserver/server.go:277-289 | in every run the final closing empties the table and cancels every state that was in it |
| History.ListedStep | cmd/centralserver/upstream.go:18-302 | how often each source is listed after every step: data over an unknown source and a repeated SYN add it, a failed write and its death remove one |
| History.CarrierIsListed | cmd/centralserver/upstream.go:261-271 | after a data frame its source is listed by the connection |
| History.InsertedIffDelivered | cmd/centralserver/upstream.go:250-274 | in every run a frame entered a state's reorderer if and only if it was delivered to that state |
| History.InsertedIffReceived | internal/tunnel/splitter.go:160-183 | in every run a frame entered a client's reorderer if and only if the client received it |
| History.ChunksAreSent | internal/tunnel/splitter.go:78-118 | in every run a client's stream is the chunks of its send events, in order |
| History.UpstreamIsRead | cmd/centralserver/upstream.go:183-189 | in every run a state's reverse stream is the chunks its upstream reads gave, in order |
| History.EveryChunkIsSent | cmd/centralserver/upstream.go:183-201 | in every run the k-th of these chunks left as a reverse frame with number k modulo 2^32 |
| History.WriterTakesInOrder | cmd/centralserver/upstream.go:128-155 | in every run what the writer took, followed by what waits, is exactly what the queue accepted |
| EndToEnd.ReordererSelects | internal/tunnel/reorder.go:31-92 | a reorder buffer fed with one stream selects from it in order, each chunk at most once |
| EndToEnd.ReordererPrefix | internal/tunnel/reorder.go:31-46 | and without a gap timeout delivers a prefix |
| EndToEnd.ReordererComplete | internal/tunnel/reorder.go:31-46 | without a gap timeout and with nothing ready, everything is delivered if and only if everything was inserted |
| EndToEnd.ForwardDelivery | cmd/centralserver/upstream.go:250-302 | in every run the frames drained for an upstream are an in-order, at-most-once selection of the client's chunks, a prefix without a gap timeout, and then, once nothing is ready, all of them if and only if all arrived |
| EndToEnd.SentIsNumbered | internal/tunnel/splitter.go:56-118 | the frames the network may deliver are exactly those the splitter numbered 1, 2, ... after the SYN |
| EndToEnd.ForwardQueue | cmd/centralserver/upstream.go:283-301 | in every run without overlapping handlers the same holds for everything the write queue accepted |
| EndToEnd.UpstreamWrites | cmd/centralserver/upstream.go:128-155 | in every such run what the writer took for the target is an in-order, at-most-once selection of the chunks the client's send events carried |
| EndToEnd.QueueOrderIff | cmd/centralserver/upstream.go:283-301 | in every run, for a drain on a connection that has not overlapped: every continuation by pushes and takes keeps its queue in order if and only if the drain did not overlap |
| EndToEnd.OverlapCanBreakOrder | cmd/centralserver/upstream.go:292-301 | in every run that has two handlers waiting, a continuation puts the queue out of order |
| EndToEnd.ReverseOrder | cmd/centralserver/upstream.go:183-201 | in every run what the client is given has increasing numbers, consecutive without a gap timeout, and each entry is the chunk of that number of some state of the connection, also when the connection was recreated |
| EndToEnd.ReverseDelivery | cmd/centralserver/upstream.go:183-201 | for a client that inserted frames of one state: an in-order, at-most-once selection of the chunks that state read; without a gap timeout a prefix of its bytes, and, once nothing is ready, all of them if and only if all arrived |
| EndToEnd.RelayWritesSelection | internal/tunnel/splitter.go:120-198 | whatever ticks, frames and failing writes the client relay's loops see, the chunks written are an in-order, at-most-once selection of a stream whose chunks came in, and never more bytes are counted than it has |
| EndToEnd.RelayComplete | internal/tunnel/splitter.go:120-198 | without a gap timeout and a failed write, the relay writes the whole stream if and only if every chunk of it came in before it stopped |
| EndToEnd.RelayInEveryRun | internal/tunnel/pool.go:289-323 | in every run of the system this holds of the chunks written to the client and the chunks the server state read from upstream; without a gap timeout and a failed write it is everything if and only if every chunk came in |
| EndToEnd.CurrentOrCancelledIff | cmd/centralserver/server.go:265-275 | in every run, a state ever created is the current entry or cancelled if and only if no removal still owes its cancel |
| EndToEnd.CurrentOrCancelled | cmd/centralserver/server.go:265-275 | in runs in which every removal was followed by its cancel, a state is the current entry if and only if it is not cancelled |
| EndToEnd.ServerTables | cmd/centralserver/upstream.go:18-56 | in every run: current entry if and only if it has not left the table; left if and only if cancelled or owed its cancel, never both; sources listed only where they carried a frame; no duplicates if each SYN came first |
| EndToEnd.DeadSourcesAreGone | cmd/centralserver/server.go:114-153 | if each SYN came first on its source, a dead source is in no current list and every served survivor has a source |
| Limits.RecreationMixesStreams | cmd/centralserver/upstream.go:18-56 | a run in which a late SYN recreates a connection and the client is given chunks of both states |
| Limits.LeftUncancelled | cmd/centralserver/server.go:265-275 | a run after which a state is neither in the table nor cancelled |
| Limits.OverlapSwapsChunks | cmd/centralserver/upstream.go:292-301 | a run in which the write queue takes two chunks in the wrong order |
| Limits.DeadSourceStaysListed | cmd/centralserver/server.go:114-153 | a run in which a source that sent its SYN twice is still listed after its clean-up |
| Limits.EmptyFrameDelaysFlush | cmd/centralserver/upstream.go:131-144 | with an empty frame the drain log depends on when the upstream became ready |
| Failover.RotationIsExhaustive | cmd/centralserver/state.go:87-94 | the rotated order is a permutation of the list |
| Failover.SendIsExhaustive | cmd/centralserver/state.go:97-113 | exactly one source takes the frame, the first working one in rotation; exactly those tried before are removed; failure if and only if none works |
| Failover.ConsecutiveSendsUseEachOnce | cmd/centralserver/state.go:87-94 | with n stable working sources each list position, and each source if none is listed twice, is used by exactly one of any n consecutive sends |
| Pool.TunnelConn.WriteFrame | internal/tunnel/tunnelconn.go:33-49 | succeeds exactly on an open connection with an encodable frame and a working socket |
| Pool.TunnelConn.FrameRead | internal/tunnel/pool.go:306 | records when a frame was last heard |
| Pool.StaleIff | internal/tunnel/pool.go:188-196 | a connection whose fields follow its uses is stale if and only if something was sent over it and nothing was heard for more than fifteen seconds |
| Pool.EachIsFirstOnce | internal/tunnel/pool.go:142-145 | over as many consecutive cursor positions as there are connections each is tried first exactly once |
| Pool.TunnelConn.Close | internal/tunnel/tunnelconn.go:51-58 | sets the closed flag |
| Pool.TunnelPool.SendFrame | internal/tunnel/pool.go:132-157 | the first connection in rotation that can takes the frame, the ones before it are closed, the ones after it untouched, no other takes anything, failure if and only if none can |
| Pool.TunnelPool.RemoveDead | internal/tunnel/pool.go:167-210 | exactly the open, non-stale connections of healthy instances stay, exactly the others are closed |
| Pool.TunnelPool.ReplenishAll | internal/tunnel/pool.go:212-236 | keeps what is pooled and fills each healthy non-ssh instance to eight unless the dial made with the connections it then holds failed |
| Pool.TunnelPool.RefreshConnections | internal/tunnel/pool.go:160-236 | the pool invariant; an open connection of a healthy instance stays if and only if its history does not make it half-dead, every connection that left is closed and none reopened; eight per healthy non-ssh instance unless the last dial made for it failed |
| Scheduler.FasterWeighsMore | internal/tunnel/splitter.go:200-224 | an instance with a smaller measured ping never weighs less |
| Scheduler.WeightIsRatio | internal/tunnel/splitter.go:200-224 | for a measured instance the weight, in both schedulers, is the whole number of times its ping fits into the largest one, bounded from both sides without the weight function; for an unmeasured one it is 1 in the splitter |
| Scheduler.SharesFollowSpeed | internal/tunnel/splitter.go:200-247 | in any window of as many picks as the weights sum to, picks times ping of two measured instances differ by less than the larger ping |
| Scheduler.WeightsAgreeIff | internal/balancer/weighted_rr.go:45-70 | exactly when the two weight computations agree |
| Scheduler.PickIsNearestHealthy | internal/tunnel/splitter.go:226-255 | a pick succeeds if and only if some instance is healthy and returns the first healthy one in rotation order |
| Scheduler.KthPick | internal/tunnel/splitter.go:226-247 | with all healthy the k-th pick is the instance whose prefix-sum interval contains the position modulo the weight sum |
| Scheduler.WindowIsFair | internal/tunnel/splitter.go:226-247 | any window of as many picks as the weights sum to picks each instance exactly as often as its weight |
| Scheduler.HealthyWindowIsFair | internal/tunnel/splitter.go:226-247 | while the set of healthy instances stays the same, any window of as many picks as their weights sum to picks each of them exactly as often as its weight and no other |
| Scheduler.SchedulersAgree | internal/balancer/weighted_rr.go:22-42 | both schedulers produce the same picks forever and the balancer never reaches its fallback |
| Scheduler.SchedulersAgreeIff | internal/balancer/weighted_rr.go:22-70 | they do so if and only if there is one instance, every ping is positive or the largest is below the limit |
| Modular.ModIsRemainder | internal/balancer/weighted_rr.go:30-34 | the remainder the model's rotations use is the operator `%` |
| Balancer.ComputeWeights | internal/balancer/weighted_rr.go:45-70 | computes the balancer's weights, each the ratio `Scheduler.WeightIsRatio` states |
| Balancer.WeightedRoundRobin.Pick | internal/balancer/weighted_rr.go:22-42 | refines the balancer's pick and cursor |
| Splitter.PacketSplitter.constructor | internal/tunnel/splitter.go:32-42 | numbering starts at 0, the cursor at the first instance |
| Splitter.PacketSplitter.RecalcWeights | internal/tunnel/splitter.go:200-224 | computes the splitter's weights, each the ratio `Scheduler.WeightIsRatio` states |
| Splitter.PacketSplitter.PickInstance | internal/tunnel/splitter.go:226-255 | refines the splitter's pick and cursor |
| Splitter.PacketSplitter.SendSyn | internal/tunnel/splitter.go:56-76 | one SYN frame with the next number, failure if and only if no instance took it |
| Splitter.PacketSplitter.RelayClientToUpstream | internal/tunnel/splitter.go:78-118 | consecutive numbers for a prefix of the chunks read, routed by the successive picks, stopping only where a pick fails; which instance takes each frame, the second attempt included; the exact byte count |
| Splitter.PacketSplitter.PickInstanceExcluding | internal/tunnel/splitter.go:257-264 | the first healthy instance with another identifier |
| Splitter.DeliveryIsSingle | internal/tunnel/splitter.go:107-112 | a frame is taken by at most one instance, by none if and only if the picked one fails and so does the first other healthy one, if there is one |
| Uplink.RelayOverPool | internal/tunnel/splitter.go:78-118 | the relay with its pool: every pooled connection has taken exactly the numbered frames assigned to it, in order, each frame assigned to at most one |
| Uplink.TakenByOne | internal/tunnel/pool.go:142-156 | while the numbers do not wrap, no frame is taken by two connections |
| Splitter.PacketSplitter.Close | internal/tunnel/splitter.go:44-54 | the FIN takes the next number |
| Splitter.RouteIsHealthy | internal/tunnel/splitter.go:93-96 | every chunk goes to an instance healthy at its pick; a pick fails if and only if none is |
| Splitter.RouteIsFair | internal/tunnel/splitter.go:226-247 | while all are healthy the chunks are routed by the fair rotation |
| Splitter.DrainToClient | internal/tunnel/splitter.go:138-151 | the calls made, the chunks written and the bytes counted, also when a write fails half-way |
| Splitter.RelayUpstreamToClient | internal/tunnel/splitter.go:120-198 | the client is given exactly what a reorder buffer from 0 consumes of the inputs handled, all of whose data frames it inserted; where the relay stops and why; every byte counted unless a write failed |
| Splitter.ReplayFromInputs | internal/tunnel/splitter.go:160-183 | only data frames with a payload are inserted |
| Splitter.CarriesDataIff | internal/tunnel/splitter.go:160-183 | a frame is data if and only if none of the four control bits is set and its payload is not empty |
| Splitter.ReplayInsertsIff | internal/tunnel/splitter.go:160-183 | a number and payload are inserted if and only if a data frame with them came in |
| Splitter.RelayIsDry | internal/tunnel/splitter.go:136-187 | after any inputs nothing is ready in the buffer |
| Splitter.GapsAfterInput | internal/tunnel/splitter.go:136-177 | a tick or a closing frame gives up one gap if the timer has expired and none otherwise |
| Codec.HeaderRoundTrip | internal/tunnel/protocol.go:59-105 | the header of an encoded frame gives back every field |
| Codec.FlagsAreBits | internal/tunnel/protocol.go:20-57 | for every combination of flag constants each predicate reads exactly its own bit |
| Codec.WireLayout | internal/tunnel/protocol.go:59-76 | the bytes of an encoded frame: big-endian ConnID, SeqNum, flags, big-endian length, payload |
| Codec.ReadsIff | internal/tunnel/protocol.go:80-105 | how reading a frame ends, by the bytes: a clean end, an oversized length, a frame if and only if they start with an encoding, which is the frame returned |
| Codec.PrefixStops | internal/tunnel/protocol.go:80-105 | a proper prefix of an encoded frame is not a frame |
| Codec.ParseBack | cmd/centralserver/server.go:99-109 | the frame loop reads back any list of frames and stops at a cut one |
| Codec.StreamRoundTrip | cmd/centralserver/server.go:18-109 | the server reads exactly the frames that were encoded and then stops, if and only if the first ConnID does not start with 0x05 |
| Codec.CutFirstFrame | cmd/centralserver/server.go:18-97 | a tunnel that ends inside its first frame yields no frame, and how it is reported |
| Codec.OversizedFirstIsSkipped | cmd/centralserver/server.go:184-189 | a first header announcing too much is skipped without its payload, and the frames after it are read |
| Codec.SynRoundTrip | internal/tunnel/protocol.go:135-172 | decoding undoes encoding, ignoring what follows |
| Codec.DecodesIff | internal/tunnel/protocol.go:144-172 | a payload decodes if and only if it starts with an encoded well-formed target |
| Codec.CaptureIsWellFormed | internal/proxy/socks5.go:186-226 | a captured target is well formed and is the request's own bytes |
| Codec.CaptureIff | internal/proxy/socks5.go:186-226 | each answer to a request by its bytes; accepted if and only if CONNECT is followed by a well-formed target |
| Codec.TargetSurvives | cmd/centralserver/upstream.go:78-83 | ATYP, ADDR and PORT of any accepted request are framed, read first, decoded and replayed byte for byte, and always fit a frame |
| Wire.Marshal | internal/tunnel/protocol.go:64-72 | the filled buffer is the encoding |
| Wire.WriteFrame | internal/tunnel/protocol.go:59-76 | an oversized frame is refused and leaves nothing on the wire |
| Wire.ReadNext | internal/tunnel/protocol.go:80-105 | refines reading one frame, consuming exactly its bytes |
| Wire.ParseHeader | cmd/centralserver/server.go:184-203 | what the first-frame reader returns and consumes in each case |
| Wire.HandleIncoming | cmd/centralserver/server.go:18-109 | refines the stream parser and collects exactly the identifiers served |
| Wire.CaptureRequest | internal/proxy/socks5.go:186-226 | refines the request parser although one scratch buffer is reused |
| Admission.Invariant | internal/users/user.go:31-96 | counts equal open connections, active and cooling IPs are disjoint, in every run |
| Admission.IpLimitHolds | internal/users/user.go:31-96 | active IPs never exceed the limit plus the overlapping handshakes, so never the limit when check and mark are one step |
| Admission.OverlapExceedsLimit | internal/users/user.go:31-83 | that bound is reached for every limit and every overlap |
| Admission.CooldownHolds | internal/users/user.go:45-66 | the check of an IP whose last connection closed succeeds only more than 10 s later |
| Admission.CheckAnswers | internal/users/user.go:31-74 | in every run the full verdict of a check told by the run alone: the quota, then open connections, then refused for cooldown if and only if the last close was at most ten seconds ago, then the limit, otherwise allowed |
| Admission.MarkAfterClose | internal/users/user.go:45-83 | for a handshake about to be marked for a closed IP: its check came more than 10 s after the close if and only if it was asked after the close, and then so does the mark |
| Admission.CooldownHoldsIff | internal/users/user.go:31-96 | every continuation readmits the IP only more than 10 s after a close if and only if no handshake of the IP was pending at the close |
| Admission.ReadmittedAtOnce | internal/users/user.go:77-96 | for every limit and IP, a run with never more than one handshake pending in which the IP is back at the time it left |
| Admission.SlowHandshake | internal/users/user.go:77-96 | a handshake asked before the close may also be marked more than 10 s after it |
| Users.User.CheckConnect | internal/users/user.go:31-74 | refines the check, visiting the cooldown map in any order and removing the entries that have expired |
| Users.User.MarkConnect | internal/users/user.go:77-83 | refines the marking of a connection |
| Users.User.MarkDisconnect | internal/users/user.go:86-96 | refines the release of a connection |
| Metering.LimitedWriter.Write | internal/users/io.go:67-90 | emits exactly a prefix of the returned length, charges exactly that, never asks for more than the burst, fails if and only if it is short |
| Metering.Relay | internal/proxy/relay.go:222-273 | an error-free relay charges what it carried exactly once on both paths |
| Metering.RelayPacketSplit | internal/proxy/relay.go:74-118 | charged once if and only if the user is not limited or nothing was carried, otherwise exactly twice |

## Left out

- EndToEnd.ForwardDelivery: assumes fewer than 2^32 - 1 chunks per connection; `EndToEnd.StreamOrderIff` shows that this bound is exact.
- EndToEnd.ReverseDelivery: assumes that the client inserted frames of one server state, which read at most 2^32 - 1 chunks; `Limits.RecreationMixesStreams` shows that the first is needed, and `EndToEnd.ReverseOrder` says what holds without it.
- EndToEnd.DeadSourcesAreGone: assumes that a source's SYN is its first frame for a ConnID; `Server.DeathIsExact` says what happens otherwise.
- LateConnect.ReadyTimeDoesNotMatter: assumes frames below the largest number whose duplicates agree, as a client sends them.
- Pool.TunnelConn.Close: sets the flag; the close of the socket underneath is not modelled.
- Uplink.RelayOverPool: the pool is not refreshed while the relay runs.
- ConnStateImpl.ConnState.HandleData: a handler and its pushes run without interference here; interleavings are covered by the state machine in `Server` and `Tunnel`.
- Splitter.RelayUpstreamToClient: whether the idle limit has passed is an input of each tick.
- Metering.Relay: copies without errors; partial writes are covered by `Metering.LimitedWriter.Write`.
- Pool.TunnelPool.RefreshConnections: the readiness signal and the read loops started with each connection are not modelled.
- Integer width of `roundRobin`, `sourceIdx` and the balancer's `current`: counted without overflow; `int(uint64) % n` on a 32-bit platform is not modelled.
- Times are integers; saturation of Go durations is not modelled.
- The dispatch of reverse frames to handler channels, and frames dropped when such a channel is full, are losses of the network here; ConnID 0, reserved for keepalive, is not singled out.
- The server's writer goroutine after a failed upstream write, and closing of the upstream socket after FIN.
- Behaviour after `TunnelPool.Stop`, `WaitReady`, `HasTunnels`.
- `SkipGap` and `Pending` of the reorder buffer, which the protocol does not use.
- The SOCKS greeting and the user name and password exchange, and the reading of the upstream's CONNECT reply.
- Sockets, deadlines, keepalive, TLS, dialing, the rate limiter's timing, the data quota reset and user status.
- Process supervision, ssh mode, health probes, configuration, the GUI, log text and the other balancers, which would only add easy members.
