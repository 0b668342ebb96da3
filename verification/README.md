# Verification model of kcp-io

KCP is an ARQ protocol: it turns an unreliable datagram service into ordered, reliable delivery of
messages or of a byte stream. kcp-io wraps the C engine (`kcp/ikcp.c`) and builds tokio streams and a
listener on top of it. This project models the engine, two engines over a lossy network, the stream's
`poll_read`, and the listener's accept loop, and proves what they are for.

`dafny verify dfyconfig.toml` checks the whole project.

## How the model is layered

* `Words`, `Seqs`: fixed-width arithmetic (`_itimediff`, casts, wrapping) and sequence algebra.
* `Engine`: one function per C function, on values. Sequence numbers go through `Arith`, so the same
  transition functions run on wrapping 32-bit numbers (as the C code does) and on unbounded ones.
* `Loops`, `Kcp`, `IQueue`: the imperative engine. The class `KcpEngine.Kcp` has the fields of the
  control block, a growable acknowledgement array, and an output buffer with a write position; each
  method is proved equal to the function of `Engine` on 32-bit numbers. The C struct's acknowledgement
  array, estimator, congestion, probe and clock fields are grouped into five records. `IQueue` is the
  circular doubly linked queue, with the scans of the receive path, the removal of acknowledged segments
  and the stream-mode merge on links.
* `Scans`: the early-exit scans compute the full-queue operations they abbreviate.
* `Network`: two endpoints, each with the log of every datagram it ever emitted. Delivering is
  choosing a position of the peer's log: what is not chosen is lost, chosen twice is duplicated, out of
  turn is reordered. A run is a list of events (write, read, update, flush, deliver).
* `Transport`, `Steps`, `Messages`, `Continuation`, `Progress`: invariants, ordered delivery,
  conservation, and absence of deadlock, on unbounded numbers.
* `Serial`, `Wire`, `ByteNetwork`, `Framing`, `Conservation`: the 32-bit engines follow the unbounded
  ones step for step; then down to bytes on the wire.
* `Arrivals`, `Sending`, `Calls`: one arriving segment, one flush and the two application calls, in full, by the
  fields they change. `FastAck`, `Limits`: fast retransmission, and what limits a sender over a run.
* `Flow`, `Overrun`, `Reorder`, `Congestion`, `Rto`, `Timers`, `Backoff`, `Shrinking`: one property family each.
* `Documented`: the exact conditions under which documented behaviour holds, and runs in which it does not.
* `Stream`: `poll_read` and its leftover buffer, over the imperative engine, and its runs.
* `Listener`: the accept loop, its two maps, and its runs.

Standing hypotheses, all stated as `requires` or in the type `Engine.Config`: both sides use the same
conversation number; the configuration is fixed before traffic starts and is one the setters can leave
behind (mtu at least 50, snd_wnd at least 1, rcv_wnd in 128..65535, interval in 10..5000); in the 32-bit
theorems, `Serial.Timely`: no datagram is delivered when its numbers are older than about 2^31
(`Continuation.Young`). The continuations that the progress theorems construct never turn a clock back
(`Continuation.ClockRun`) and never call flush directly (`Continuation.UpdatesOnly`).

## Where the code does not do what one would expect

* Flow control can fail. When the receive queue is full and a stale window advertisement arrives late, the
  sender numbers segments that the receiver rejects. `Overrun.FlowControlFails` is a timely run that
  does it. Over any run, every data packet ever sent, retransmissions included, is within the receiver's
  window if and only if no flush meets one guard on the two engines (`Flow.FlowControlIff`). A single flush
  numbers segments beyond the window exactly when it meets the guard (`Flow.OverrunIff`), and sends beyond it
  exactly then or when a segment numbered so before is due again (`Flow.SendsBeyondIff`,
  `Overrun.RetransmissionBeyond`). While the receiver's queue is not full it never happens
  (`Flow.NothingTooFar`). Delivery and progress are not affected.
* `ikcp_update` leaves the flush timer within one interval of the clock unless the clock lands more than
  an interval but at most ten seconds before the old flush time (`Timers.ArmedIff`); on a monotone clock
  that takes a stall of nearly 2^32 ms (`Timers.StallExample`, `Timers.AlwaysArmed`).
* `ikcp_check` is documented as the time to call update; it also returns resend times at which update does
  not flush (`Documented.CheckTooEarly`; exactly when: `Timers.FlushesAtCheck`). What always holds is that
  nothing is skipped before it (`Timers.CheckSkipsNothing`).
* `ikcp_send` in stream mode may accept only a part of the data, and `Kcp::send` then still reports the whole
  length (`Documented.ReportTooLarge`; exactly when: `Documented.ReportExactIff`). The conservation theorems
  count `ikcp_send`'s own result.
* `Kcp::recv` is documented to return as many bytes as are available in stream mode; the code returns one
  segment per call, and refuses when that does not fit (`Documented.StreamRecvShort`; exactly when the
  documented result comes out: `Documented.StreamRecvIff`).
* `poll_read` reports an incomplete fragmented message (`Documented.PollIncomplete`) and a message larger than the
  read buffer (`Documented.PollTooLarge`) as an error, and an empty message looks like the end of the stream
  (`Documented.PollBlank`); exactly when: `Documented.PollIff`, and `Documented.HalfPollIff` for the read half. No byte
  is lost by any of these (`Stream.StreamConserved`).
* Backoff wraps. A timeout makes a segment's rto grow, and its next deadline lies ahead of the clock, only under the
  conditions of `Backoff.GrowsIff` and `Backoff.AheadIff`; `Shrinking.RtoShrinks` is a run in which both fail. The
  ceiling on the rto holds regardless (`Backoff.BackoffBounded`, `Backoff.RunsBackOff`).

## Model

| member | source | states |
|---|---|---|
| Words.ItimediffExact | kcp/ikcp.c:136-139 | the serial comparison of wrapped numbers is the true difference exactly when that fits 32 signed bits |
| Loops.ScanAck | kcp/ikcp.c:578-598 | the loop removes the acknowledged segment and nothing else, stopping at the first larger number |
| Loops.ScanUna | kcp/ikcp.c:600-614 | the loop drops the acknowledged prefix of snd_buf |
| Loops.ScanFastack | kcp/ikcp.c:616-638 | the loop raises by one the counter of exactly those segments up to the acknowledged number, other than it, that were sent no later than the sending acknowledged, and changes nothing else |
| Loops.ScanInsert | kcp/ikcp.c:703-723 | the backward scan inserts a segment in order, or reports the repetition |
| Loops.ScanDeadlines | kcp/ikcp.c:1213-1220 | the loop finds the nearest resend deadline, or that one has passed |
| Loops.ScanMessage | kcp/ikcp.c:384-409 | the merge loop takes the segments of the head message up to fragment 0, with their bytes |
| Loops.ScanLength | kcp/ikcp.c:455-460 | the peek loop computes the length of the head message |
| Loops.CountFragments | kcp/ikcp.c:507-510 | the quotient computed is the number of pieces that the recursive definition counts |
| Loops.Resend | kcp/ikcp.c:1055-1096 | first transmission, timeout with backoff, fast resend or nothing, with the segment's new state |
| Engine.FragCountIsQuotient | kcp/ikcp.c:507-510 | the number of fragments is one, or the length divided by mss rounded up |
| KcpEngine.Kcp.constructor | kcp/ikcp.c:234-297 | a new control block: empty queues, zero numbers, the default windows, thresholds and timeouts |
| KcpEngine.Kcp.UpdateAck | kcp/ikcp.c:550-565 | one round-trip sample updates the estimator and nothing else |
| KcpEngine.Kcp.ShrinkBuf | kcp/ikcp.c:567-576 | snd_una becomes the first outstanding number, or snd_nxt |
| KcpEngine.Kcp.ParseAck | kcp/ikcp.c:578-598 | a selective acknowledgement inside the window removes its segment and counts it out |
| KcpEngine.Kcp.ParseUna | kcp/ikcp.c:600-614 | a cumulative acknowledgement removes the prefix and counts it out |
| KcpEngine.Kcp.ParseFastack | kcp/ikcp.c:616-638 | inside the window those counters, by field, and outside it nothing |
| KcpEngine.Kcp.AckPush | kcp/ikcp.c:644-678 | the doubling array is an append-only list of (sn, ts) pairs |
| KcpEngine.Kcp.MoveReady | kcp/ikcp.c:413-425 | the loop moves exactly the in-order head of rcv_buf, while there is room, and advances rcv_nxt |
| KcpEngine.Kcp.ParseData | kcp/ikcp.c:690-739 | window test, insertion or repetition, then moving what is ready; counters equal queue lengths |
| KcpEngine.Kcp.Input | kcp/ikcp.c:756-908 | the result code and the state after any bytes: segments before a malformed one are processed, the window grows only on success |
| KcpEngine.Kcp.PeekSize | kcp/ikcp.c:441-463 | the size of the head message, or -1 when it is incomplete |
| KcpEngine.Kcp.Recv | kcp/ikcp.c:358-435 | the three error codes, the message, peeking by negative length, refilling and fast recovery |
| KcpEngine.Kcp.AddFragments | kcp/ikcp.c:518-541 | the fragment loop appends the numbered pieces of all the data and counts every byte |
| KcpEngine.Kcp.Send | kcp/ikcp.c:469-544 | merging into the tail segment, fragmentation, partial acceptance and refusal, with the returned count |
| KcpEngine.Kcp.EncodeSeg | kcp/ikcp.c:913-924 | the bytes written behind the write position are the header in wire order and the payload |
| KcpEngine.Kcp.WriteSeg | kcp/ikcp.c:967-975 | the buffer is handed out when the next segment would exceed the MTU; the write position never passes it |
| KcpEngine.Kcp.FillWindow | kcp/ikcp.c:1028-1049 | the loop numbers and moves segments exactly while the effective window allows |
| KcpEngine.Kcp.FlushSegments | kcp/ikcp.c:1055-1115 | the retransmission loop: each segment's outcome, what is written, and the counters |
| KcpEngine.Kcp.Flush | kcp/ikcp.c:938-1145 | the state after a flush, and the exact byte datagrams it hands to the output callback |
| KcpEngine.Kcp.Advance | kcp/ikcp.c:1153-1178 | the clock and whether to flush: one interval after the old flush time when the update is less than one interval late, otherwise one interval after now, and unchanged without a flush |
| KcpEngine.Kcp.Update | kcp/ikcp.c:1153-1178 | the state and the output after an update at any time, with the next flush time |
| KcpEngine.Kcp.Check | kcp/ikcp.c:1190-1226 | the time returned, in all five cases |
| IQueue.Add | kcp/ikcp.h:165-167 | linking behind a node of the ring is insertion at its position, and relinks nothing else |
| IQueue.AddTail | kcp/ikcp.h:169-171 | linking before a node is insertion there; before the head it appends |
| IQueue.Del | kcp/ikcp.h:175-178 | unlinking removes the node from the sequence and clears its links |
| IQueue.DelInit | kcp/ikcp.h:180-181 | the removed node becomes an empty ring of its own |
| IQueue.IsEmpty | kcp/ikcp.h:183 | the test on the head's link is emptiness of the sequence |
| IQueue.InsertRemove | kcp/ikcp.h:165-178 | insertion and removal undo each other |
| IQueue.InsertSegment | kcp/ikcp.c:703-723 | the backward scan on linked nodes is ordered insertion |
| IQueue.MoveAvailable | kcp/ikcp.c:728-739 | the move loop on two linked queues moves exactly what is ready, keeping both rings |
| IQueue.DropUna | kcp/ikcp.c:600-614 | the cumulative acknowledgement loop on the linked snd_buf drops exactly the acknowledged prefix |
| IQueue.RemoveAcked | kcp/ikcp.c:583-597 | the selective acknowledgement loop on the linked snd_buf unlinks that segment and no other |
| IQueue.MergeTail | kcp/ikcp.c:479-502 | the stream-mode merge on the linked snd_queue replaces the last segment by the longer one |
| Scans.ScansAreFull | kcp/ikcp.c:578-638 | on a sorted snd_buf the three early-exit scans are full filters, and a full update of the counters of all smaller numbers sent no later |
| Scans.InsertAt | kcp/ikcp.c:703-723 | where a segment lands in a sorted rcv_buf, or that it is already there |
| Scans.MoveReadyRun | kcp/ikcp.c:728-739 | the move loop takes the maximal consecutive run that fits |
| Arrivals.PktDoes | kcp/ikcp.c:795-860 | an arriving segment leaves outstanding exactly what it does not acknowledge, moves snd_una, sets the peer's window, and is a round-trip sample only if it acknowledges a sending in the past |
| Arrivals.PushDoes | kcp/ikcp.c:690-739 | arriving data is acknowledged when it is not beyond the window, kept when it is inside and new, and the longest run in sequence that fits moves to rcv_queue |
| Sending.FlushNumbers | kcp/ikcp.c:1023-1049 | a flush numbers exactly min(|snd_queue|, max(0, snd_una + w - snd_nxt)) segments, w the least of snd_wnd, the peer's window and, unless turned off, cwnd |
| Sending.FlushDoes | kcp/ikcp.c:938-1145 | a flush by its fields: every acknowledgement, the probes, then in order exactly the segments that are new, past their deadline or skipped often enough, with their stamps, timers and counters; the probe timer, the dead flag and the congestion state |
| FastAck.InputCounts | kcp/ikcp.c:799-880 | a datagram that does not acknowledge a segment raises its counter by one if and only if its leading acknowledgement is of a later number and answers a sending no earlier |
| FastAck.CarriesIff | kcp/ikcp.c:1055-1113 | a flush sends a segment of snd_buf if and only if it was never sent, is past its deadline, or was skipped often enough |
| FastAck.FastRetransmit | kcp/ikcp.c:616-1096 | before its deadline the next flush sends a segment again if and only if fastresend datagrams led by acknowledgements of later numbers have arrived and it was not sent too often |
| Calls.RecvDoes | kcp/ikcp.c:358-435 | which of the three errors comes back and when, or the head message; what is left, refilled, and whether the peer is to be told |
| Calls.ReopenTold | kcp/ikcp.c:427-432 | when a read opens a full queue, the next flush tells the peer the room there is |
| Calls.PiecesFull | kcp/ikcp.c:507-541 | data is cut into full pieces and one last piece with what remains |
| Steps.Reachable | kcp/ikcp.c:358-1145 | every reachable state of the two endpoints satisfies the transport invariant |
| Steps.AckedMeansHeld | kcp/ikcp.c:834-852 | every number assigned is still outstanding or held by the peer; every acknowledgement queued or in flight names a held segment |
| Steps.SenderWindowRuns | kcp/ikcp.c:567-614 | snd_buf sorted in [snd_una, snd_nxt), snd_una first unacknowledged and never decreasing, at most snd_wnd and at most 65535 outstanding |
| Steps.ReceiverRuns | kcp/ikcp.c:690-739 | rcv_buf sorted in the window, its head next only when rcv_queue is full; what was handed out plus rcv_queue is the sender's numbering |
| Limits.WindowsLimit | kcp/ikcp.c:1023-1049 | in every run, an event that numbers segments leaves outstanding no more than snd_wnd, the window last heard, and, unless turned off, cwnd |
| Limits.TimeoutStops | kcp/ikcp.c:1023-1139 | after a flush with a timeout nothing new is numbered until something is acknowledged |
| Limits.DeadIff | kcp/ikcp.c:1111-1113 | in every run the link becomes dead exactly in a flush that sends some segment for the 20th time or later; until then none was sent 20 times |
| Calls.StreamPacked | kcp/ikcp.c:474-541 | in every run in stream mode all segments of snd_queue are full but the last, and none is empty |
| Messages.MessagesInOrder | kcp/ikcp.c:358-1145 | message mode: under loss, duplication and reordering the messages received are a prefix of those accepted, each intact |
| Messages.BytesConserved | kcp/ikcp.c:358-544 | either mode: accepted bytes are those read, those readable, and those still to come, once and in order |
| Messages.FullQueueReadable | kcp/ikcp.c:926-933 | advertising window 0 implies that a whole message can be peeked and received |
| Progress.Retransmit | kcp/ikcp.c:1055-1115 | outstanding data: some continuation on clocks that only advance (reading, a timeout, an answer) strictly advances the sender |
| Progress.ProbeWindow | kcp/ikcp.c:979-1016 | a closed window is reopened by asking and telling, on clocks that only advance |
| Progress.NoDeadlock | kcp/ikcp.c:938-1226 | from every reachable state a continuation without writes, driven by updates alone on clocks that only advance, delivers everything accepted and empties the sender |
| Serial.Simulation | kcp/ikcp.c:136-139 | for timely runs of any length the 32-bit engines are in exactly the wrapped states of the unbounded ones |
| Serial.Delivery32 | kcp/ikcp.c:756-908 | ordered, exactly-once delivery by the 32-bit engines |
| Serial.NoDeadlock32 | kcp/ikcp.c:938-1145 | every timely 32-bit run has a timely continuation, driven by updates alone on clocks that only advance, that delivers everything |
| Wire.DecodeEncode | kcp/ikcp.c:54-119 | decoding an encoded segment gives it back and leaves the rest |
| Wire.InputEncoded | kcp/ikcp.c:768-876 | the bytes of a datagram are accepted, and processed exactly as its list of segments |
| Wire.InputAnyBytes | kcp/ikcp.c:768-876 | any bytes are the encoding of well-formed segments of this conversation, which are processed, and a rest that decides the result code 0, -1, -2 or -3 |
| Wire.PackFits | kcp/ikcp.c:963-1121 | packing keeps every packet in order and fills nothing beyond the MTU |
| Wire.PackTight | kcp/ikcp.c:963-1121 | no datagram is handed out while the next packet would still have fitted |
| ByteNetwork.ByteSimulation | kcp/ikcp.c:756-1145 | hosts exchanging bytes follow the run of the unbounded engines |
| ByteNetwork.ByteDelivery | kcp/ikcp.c:756-1145 | delivery between hosts that exchange bytes |
| ByteNetwork.ByteProgress | kcp/ikcp.c:756-1145 | and every timely run of them can be continued to full delivery, by updates alone on clocks that only advance |
| Framing.FlushFrames | kcp/ikcp.c:963-1121 | the datagrams of a flush are nonempty, within the MTU, and concatenate to everything written |
| Framing.MtuRespected | kcp/ikcp.c:967-975 | no byte datagram of any timely run is empty or longer than the MTU |
| Framing.FlushReceived | kcp/ikcp.c:768-876 | the peer accepts all datagrams of a flush and processes exactly the list of headers and payloads written |
| Conservation.SendReturns | src/core/kcp.rs:168-177 | exactly when a send is refused, accepted in part, or accepted whole, from the room in the last segment and the number of segments needed |
| Conservation.FetchIs | kcp/ikcp.c:690-739 | a number not yet readable is held by one of the engines, with its bytes |
| Conservation.HostsConserve | kcp/ikcp.c:358-544 | 32-bit hosts: accepted bytes are those read plus those in the two engines' own queues, once and in order |
| Flow.QueuesBounded | kcp/ikcp.c:696-739 | rcv_queue and rcv_buf each hold at most one receive window |
| Flow.OverrunIff | kcp/ikcp.c:1023-1049 | a flush numbers segments beyond the receiver's window exactly when the effective window from snd_una and the waiting data both reach beyond it |
| Flow.SendsBeyondIff | kcp/ikcp.c:1023-1113 | a flush sends anything beyond the window exactly when it meets that guard or a segment numbered beyond it before is due again |
| Flow.FlowControlIff | kcp/ikcp.c:1023-1113 | throughout a run every data packet ever sent, retransmissions included, is within the receiver's window if and only if no flush of the run meets the guard |
| Flow.OverrunNeedsFullQueue | kcp/ikcp.c:926-933 | that takes a full receive queue and acknowledgements of segments not yet in it |
| Flow.NothingTooFar | kcp/ikcp.c:247-249 | while the receive queue is never full, every data packet ever sent is within the window, even on stale advertisements |
| Overrun.FlowControlFails | kcp/ikcp.c:1023-1049 | a timely run on advancing clocks after which the sender's flush meets the guard and sends beyond the receiver's window |
| Overrun.RetransmissionBeyond | kcp/ikcp.c:1055-1113 | a timely run whose last flush does not meet the guard and still sends beyond the window, by retransmitting |
| Reorder.Confluence | kcp/ikcp.c:690-739 | any order and repetition of the same segments gives the same rcv_nxt, rcv_queue and rcv_buf |
| Congestion.GrowOk | kcp/ikcp.c:882-904 | one input: no product or sum wraps, cwnd never falls and rises by at most 2, incr stays within one segment of cwnd * mss |
| Congestion.CutOk | kcp/ikcp.c:1052-1144 | after any flush the same bounds hold again; a fast resend puts cwnd at the threshold plus fastresend, or, exactly with fastresend 0, wraps to the threshold less one |
| Congestion.CongestionBounded | kcp/ikcp.c:882-904 | after the first flush every run keeps cwnd at least 1, ssthresh at least 2 and incr near cwnd * mss |
| Rto.EstimateOk | kcp/ikcp.c:550-565 | over any samples up to R < 2^28 the 32-bit estimator is the exact one, stays within max(R, 1), and rto stays in its bounds |
| Rto.Settles | kcp/ikcp.c:550-565 | under a constant round-trip time r, srtt enters and stays in [r - 7, r] and rttval falls to at most 7 |
| Arrivals.ExactInRuns | kcp/ikcp.c:550-850 | in every run the estimate is the exact estimator's on exactly the samples that arrived, while these are below 2^28 |
| Timers.CheckIsEarly | kcp/ikcp.c:1190-1226 | check waits exactly until the first of the flush time, a resend deadline and one interval, and exactly when it does not wait at all |
| Timers.CheckSkipsNothing | kcp/ikcp.c:1153-1226 | an update before the time returned by check changes only the clock |
| Timers.NextFlushTime | kcp/ikcp.c:1153-1178 | where an update puts the next flush time, in every case |
| Timers.UpdateTimes | kcp/ikcp.c:1153-1178 | the same for a whole update with its flush |
| Timers.NoDrift | kcp/ikcp.c:1171-1175 | over any updates that come less than one interval late, the flush time pending after k flushes is the first plus k intervals |
| Timers.ArmedIff | kcp/ikcp.c:1153-1178 | exactly when an update leaves the next flush within one interval |
| Timers.StallExample | kcp/ikcp.c:1153-1178 | a stall after which it does not |
| Timers.AlwaysArmed | kcp/ikcp.c:1153-1178 | the first update at any time flushes and arms the timer, and over any further updates on a monotone clock, through wrap-around, it stays armed |
| Timers.FlushWhenDue | kcp/ikcp.c:1153-1178 | exactly when an update flushes, the first one included |
| Timers.FlushesAtCheck | kcp/ikcp.c:1180-1226 | exactly when the update at the time returned by check flushes: unless a resend deadline or the interval comes before the pending flush |
| Backoff.BackoffBounded | kcp/ikcp.c:1055-1088 | a segment's rto after k timeouts, for every k and over any mix of outcomes, is at most 60000 grown k times by the mode's factor, also where 32 bits wrap |
| Backoff.RunsBackOff | kcp/ikcp.c:1055-1088 | in every run of the two engines, a segment sent x times has an rto at most that ceiling after x - 1 timeouts, and within the limit at least 30 and below 2^31 |
| Backoff.GrowsIff | kcp/ikcp.c:1069-1077 | exactly when a timeout makes the rto grow, in each mode |
| Backoff.AheadIff | kcp/ikcp.c:1055-1096 | exactly when the deadline a flush sets lies ahead of the clock: when the new rto is positive and below 2^31 |
| Shrinking.RtoShrinks | kcp/ikcp.c:1064-1079 | a run on default timing whose 24th timeout sets a deadline already past, and whose 25th makes the rto shrink |
| Backoff.CeilingPowers | kcp/ikcp.c:1069-1077 | that ceiling in closed form: 60000 * 2^k, or 60000 * 1.5^k |
| Backoff.DeadlinesAhead | kcp/ikcp.c:1055-1113 | up to 15 timeouts (nodelay 0) or 20, every deadline lies ahead and every timeout makes the rto grow |
| Backoff.RunsInRange | kcp/ikcp.c:563-564 | in every run the estimate stays in the range those bounds start from |
| Stream.ReadSide.PollRead | src/tokio_rt/stream.rs:288-362 | `poll_read` of the stream over the imperative engine, with its read buffer and positions; a leftover is handed out first, as much as there is room for |
| Stream.ReadSide.PollHalf | src/tokio_rt/stream.rs:689-777 | `poll_read` of the read half, with either lock attempt failing; a leftover is handed out first, as much as there is room for |
| Stream.PollKeeps | src/tokio_rt/stream.rs:294-314 | leftover plus what is received equals what is handed out plus the new leftover |
| Stream.PollGives | src/tokio_rt/stream.rs:294-314 | every poll hands out exactly min(n, room) of the n bytes it has, the first ones, and keeps the rest; with a leftover it does nothing else |
| Stream.LeftoverEmptied | src/tokio_rt/stream.rs:295-301 | polls with room hand out a leftover completely, in at most as many polls as it has bytes |
| Stream.StreamIsHostRun | src/tokio_rt/stream.rs:288-362 | a run with polls is a run of the two hosts on the engine events underneath |
| Stream.StreamConserved | src/tokio_rt/stream.rs:288-777 | bytes handed out, then the leftover, then what the two engines hold, are exactly the bytes accepted by send |
| Documented.CheckTooEarly | src/core/kcp.rs:252-258 | a run after which check returns a time at which update does not flush |
| Documented.ReportExactIff | src/core/kcp.rs:168-177 | exactly when the length reported by `Kcp::send` is the number of bytes accepted |
| Documented.ReportTooLarge | src/core/kcp.rs:168-177 | a run after which it is not |
| Documented.StreamRecvIff | src/core/kcp.rs:179-211 | in every stream-mode run, exactly when recv returns all available bytes up to the buffer's length |
| Documented.StreamRecvShort | src/core/kcp.rs:179-211 | a timely run after which it returns fewer |
| Documented.PollIff | src/tokio_rt/stream.rs:288-362 | for any leftover, exactly when `poll_read` with room reports an error, that nothing has come yet, or no bytes, which is never while something is left over |
| Documented.HalfPollIff | src/tokio_rt/stream.rs:689-777 | the same for the read half, with either lock attempt failing |
| Documented.PollIncomplete | src/tokio_rt/stream.rs:301-321 | a timely run of the hosts after which a half-arrived message makes the poll fail |
| Documented.PollTooLarge | src/tokio_rt/stream.rs:301-321 | for any read buffer smaller than some message, a timely run after which the poll fails on it |
| Documented.PollBlank | src/tokio_rt/stream.rs:301-313 | a timely run after which an empty message reads like the end of the stream |
| Listener.Acceptor.AcceptLoop | src/tokio_rt/listener.rs:130-209 | the loop over its two maps computes the run of the specification |
| Listener.Acceptor.Admit | src/tokio_rt/listener.rs:174-208 | a datagram of a key that is not live begins a session, first in its log, exactly when one can be made and fed and the key is not closed within the TTL; the loop ends only when that session is not accepted |
| Listener.TurnDoes | src/tokio_rt/listener.rs:150-209 | what one turn does to both maps, the history and the loop, in every case |
| Listener.BeginsIff | src/tokio_rt/listener.rs:162-208 | in every run on a monotone clock, by history alone: exactly which datagrams begin a session, with that datagram first in its channel |
| Listener.AlwaysTidy | src/tokio_rt/listener.rs:162-209 | a key is never live and closed at once, and has at most one live session |
| Listener.ChannelsExact | src/tokio_rt/listener.rs:162-209 | each channel gets exactly the in-order datagrams of its key from creation until closure is noticed |
| Listener.RecreatedLate | src/tokio_rt/listener.rs:174-182 | a key gets a new session only 60 s or more after its closure was noticed |
| Listener.CleanupInvisible | src/tokio_rt/listener.rs:183-186 | with or without the bulk cleanup all sessions have the same histories |

## Left out

- Allocation failure, `ikcp_release`, logging, `ikcp_qprint` and allocator hooks: they do not touch the protocol.
- Reconfiguration during a run (`ikcp_setmtu`, `ikcp_wndsize`, `ikcp_nodelay` after traffic starts) and rcv_wnd above
  65535: the configuration is fixed, in the range the setters leave.
- NULL data pointers and lengths from 2^31 on: data are byte sequences, and a length field of 2^31 or more
  in a header is rejected as the code does.
- Signed overflow in the estimator, undefined in C, is modelled as wrap-around; `Rto.EstimateOk` shows that it does
  not happen for samples below 2^28.
- The FFI declarations, raw-pointer ownership and the output callback bridge (`src/sys.rs`, most of
  `src/core/kcp.rs`): thin wrappers; the callback appends to a list of datagrams.
- Sockets, wakers, tokio scheduling, locks, timeouts of idle sessions and the transport hook: a poll or a turn of
  the loop takes what the environment did as a parameter, and the hook is the identity.
- `recv_kcp` mixed with `poll_read` on one stream.
- Datagrams of a peer that does not follow the protocol: the two-endpoint theorems are about two such engines. What
  one call does on arbitrary bytes is covered by `KcpEngine.Kcp.Input`.
- KcpEngine.Kcp.Input: the four queues are fields of type sequence; that their linked form behaves like sequences is
  proved separately in `IQueue`, and the two are not composed. The retransmission fields that flush and the
  acknowledgement scan set inside a linked segment, and its move from snd_queue to snd_buf, are modelled on sequences.
- Congestion.CongestionBounded: assumes mss at most 65535 and fastresend at most 32768; beyond these the products and
  sums of the window update can exceed 32 bits.
- Listener.RecreatedLate: one clock reading per turn stands for the two that the code makes while it handles a datagram.
