# natp2p, verified

natp2p is a peer-to-peer overlay: nodes behind NAT talk through relays, relays are paid per byte by vouchers,
and messages travel as acknowledged frames over several carriers. This project models eight of its parts in
Dafny and proves what they promise over every input, every run or every reachable state.

| part | files |
|---|---|
| settlement queue on a hash-chained log | `Envelopes`, `WriteAheadLog`, `LogReplay`, `LogIntegrity`, `SettlementQueue`, `QueueRuns`, `QueueAcceptance`, `QueueRestarts`, `QueueObject` |
| acknowledged frames | `MessageCodec`, `FrameCodec`, `AckRanges`, `WireFormats`, `FrameAssembly`, `Assembler`, `AckTracking`, `Arq`, `ArqSafety`, `ArqAnswers`, `ArqReplay`, `ArqReading`, `ArqProgress`, `ArqOverflow`, `StreamObject` |
| billing gate | `HoldbackRules`, `HoldbackTally`, `Holdback`, `HoldbackSteps`, `HoldbackApproval`, `HoldbackRuns`, `HoldbackReleases`, `HoldbackEvents`, `HoldbackUnpaid`, `HoldbackObject` |
| end-to-end record identity | `ReplayWindow`, `RecordIds`, `RecordSealing` |
| relay ID translation and ACK accounting | `RouteTable`, `RouteRuns`, `RouteLifetimes`, `RouteObject`, `AckAccounting` |
| order-restoring streams | `Reordering`, `StripedConnection`, `StripedDelivery`, `TunnelStream` |
| voucher chains | `Voucher`, `VoucherLinks` |
| Kademlia table | `Distance`, `NodeBucket`, `BucketRuns`, `RoutingTable`, `NodeRecency` |

`Sequences`, `Bytes` and `Sorting` hold what they share.

How the parts are built:

- Where the source changes an object in place there is a class whose methods are proved equal, field by field,
  to a function on values (`View() == Step(old(View()), ...)`). The theorems about runs are about these functions.
- A protocol is a step relation over a world: the state of each side, everything ever sent, and histories. The
  network may deliver anything that was sent, any number of times, in any order, or never.
- SHA-256, the JSON of an envelope, signatures, what the encryption suite makes of a message, record inspection
  and the answer of the billing hook are functions or values given from outside. A theorem that needs a digest to be injective says so in its
  conclusion: the contents agree, or they are a collision.
- Every operation that decides something has a lemma that says when, in terms of the bytes, the live entries or the
  history of the run and not of the function itself: most are named `...Exactly`. Whether a file, a voucher, a frame,
  an envelope or a record is accepted, and what is then stored, answered or let through, is told by these.
- A disk write adds the frame or any prefix of it; a timer or a clock is a step that may happen at any time, and
  time is a parameter that does not go back where the source needs that.
- A call that holds a lock is one step. A validation of a withheld message, which reads the phase and approves
  later, is two steps with everything else allowed in between. A maintenance of a bucket, which probes nodes
  without the lock, is one step for every answer it settles.

Where the code and its comments disagree the model follows the code:

- A header is 254 bytes long (`network/Message.go:38`), not the 512 its writer's comment says.
- A node added to a full bucket of the Kademlia table is not listed: it goes into the cache of the bucket, and the
  split that follows discards that cache (`RoutingTable.AddKeeps`).
- A route of 128 bytes leaves no room for the leg flags, so they arrive as zero (`MessageCodec.HeaderUnchanged`).

What one might expect and the code does not do, with the exact condition proved in each case:

- A send that succeeds need not have been received: a record that is overtaken by 65536 others is confirmed and
  dropped (`ArqReplay.Reliable`, `ArqReplay.OvertakenSucceeds`).
- As many acknowledged marks as frames need not be all frames, if an ACK names a frame beyond the last
  (`AckTracking.CountIsTrusted`, `AckTracking.StrayAck`, `AckTracking.StrayAckSucceeds`).
- A message of more than 131070 frames can close its own stream (`ArqProgress.ReportsFitExactly`,
  `ArqOverflow.OverflowRun`, `ArqOverflow.LongSampleCloses`).
- Crashes that each come right after the frame of a removal, before any compaction it triggers, let the queue's
  file grow until it is refused (`QueueRestarts.RestartExactly`, `QueueRestarts.SkippedAddUp`,
  `QueueRestarts.GrowsUntilRefused`).
- A bucket on its own does not keep IDs unique, nor its cache apart from its list, if a node is added while a
  maintenance has it in hand; and a candidate that is put back late waits beside a free place
  (`BucketRuns.StepKeepsExactly`, `BucketRuns.ListedTwice`, `BucketRuns.ListedAndCached`,
  `BucketRuns.CachedBesideRoom`). The buckets of a table are safe: what they cache is gone before the table is
  released (`RoutingTable.NothingToRefill`).
- A superset of what was acknowledged is refused if its ranges touch (`AckAccounting.ContainsIsSubset`,
  `AckAccounting.TouchingRangesAreRefused`).

## Model

| member | source | states |
|---|---|---|
| `Voucher.BodyPrintParse` | billingvoucher/voucher.go:163-221 | every valid voucher body survives print then parse |
| `Voucher.BodyParsePrint` | billingvoucher/voucher.go:190-221 | whatever parses as a body prints to the very same bytes, so each body has one encoding |
| `Bytes.FirstCountsMost` | billingvoucher/voucher.go:163-188 | big-endian: the first byte counts most |
| `Voucher.VoucherPrintParse` | billingvoucher/voucher.go:268-336 | every valid mutual voucher survives print then parse, signatures included |
| `Voucher.VoucherParsePrint` | billingvoucher/voucher.go:287-336 | a byte string that parses is the canonical print of what it parsed to |
| `VoucherLinks.ParsesExactly` | billingvoucher/voucher.go:101-221 | bytes are accepted as a body exactly when they are 285, begin with the domain and hold at fixed places a body that meets every condition of validation; they then mean that body |
| `VoucherLinks.PrintsExactly` | billingvoucher/voucher.go:163-188 | a body is printed exactly when it meets those conditions, as the bytes that are accepted for it |
| `VoucherLinks.WireExactly` | billingvoucher/voucher.go:268-336 | bytes are a voucher exactly when they are the domain, a valid body as printed and two signatures with their lengths, and nothing else |
| `VoucherLinks.IdExactly` | billingvoucher/voucher.go:223-266 | a voucher has an identifier exactly when body and both signatures are valid, and it is the digest of the domain, the body identifier and the signatures with their lengths |
| `VoucherLinks.IdBinds` | billingvoucher/voucher.go:223-266 | vouchers with the same identifier are equal, or they exhibit a collision |
| `VoucherLinks.SuccessorExactly` | billingvoucher/voucher.go:338-376 | a voucher is accepted after another exactly when both are valid, its body differs in six fields only, the sequence is the next, the predecessor is named by its identifier, the total grows by 1 to 1 MiB, the last record is later and the record set another |
| `VoucherLinks.ChainExactly` | billingqueue/inspect.go:188-206 | a chain is accepted exactly when it begins with a valid voucher of sequence 1 and each next one is accepted after the one before it |
| `VoucherLinks.ChainLinks` | billingvoucher/voucher.go:338-376 | in an accepted chain every voucher but the first names the identifier of the one before it |
| `VoucherLinks.LastBindsChain` | billingvoucher/voucher.go:338-376 | two accepted chains with the same last voucher are the same from the first on, or they exhibit a collision |
| `Voucher.ChainPositions` | billingvoucher/voucher.go:101-161 | in a chain accepted from its genesis, which `VoucherLinks.ChainExactly` states exactly, the j-th voucher has sequence j, all bind the same parties, each adds between one byte and one window, and no total passes its authorization or the ceiling of its window |
| `Voucher.TotalsAreExact` | billingvoucher/policy.go:33-41 | the relay's share is exactly floor(95c/100), the CA gets the rest, and no intermediate value leaves 63 bits |
| `Voucher.TotalsAreMonotone` | billingvoucher/policy.go:33-41 | both shares grow with the total, so no payment is negative |
| `Voucher.PaidTelescopes` | billingvoucher/policy.go:33-41 | settling in any grouping pays the difference of the two cumulative splits |
| `Voucher.ChainSettlement` | billingqueue/inspect.go:188-206 | however an accepted chain is batched, relay and CA receive exactly the split of its last total |
| `Envelopes.EnvelopeReadsBack` | billingqueue/queue.go:854-917 | what the queue encodes decodes to the same envelope, and its voucher has an identifier |
| `Envelopes.EncodesExactly` | billingqueue/queue.go:854-885 | an envelope is encoded exactly when its voucher is valid and its identity passes the check, as the domain and the JSON of its form on disk |
| `Envelopes.DecodesExactly` | billingqueue/queue.go:887-917 | bytes are decoded exactly when they are the encoding of a valid envelope, so none has two encodings |
| `WriteAheadLog.ValidateLimits` | billingqueue/queue.go:483-514 | limits are accepted exactly when both global ones are positive, no payer may use more than everyone together, and four times the largest live file plus 16 MiB, the replay ceiling, is below 2^63-1; a payer limit of zero is accepted |
| `WriteAheadLog.ReplayValid` | billingqueue/queue.go:582-686 | whatever replay accepts satisfies every bookkeeping equation and every global limit |
| `WriteAheadLog.WrittenFrameIsWhole` | billingqueue/queue.go:552-580 | the frame the writer produced is read back as the step it meant, with the chained digest |
| `WriteAheadLog.FrameIsLocal` | billingqueue/queue.go:599-640 | a whole frame reads the same in every file with the same bytes up to its end |
| `WriteAheadLog.CutFrameIsTorn` | billingqueue/queue.go:599-611 | in every shorter cut a whole frame looks torn, never corrupt |
| `WriteAheadLog.AppendExtends` | billingqueue/queue.go:705-731 | appending a frame to a complete file gives a complete file that means one step more |
| `WriteAheadLog.TailIsIdle` | billingqueue/queue.go:674-685 | cutting off the tail that replay ignored leaves a complete file with the same meaning |
| `WriteAheadLog.CutReplays` | billingqueue/queue.go:582-686 | every cut behind the header replays to the log of exactly the frames wholly inside it |
| `WriteAheadLog.TornAppend` | billingqueue/queue.go:705-731 | a torn append leaves the old meaning; only the last byte brings the new one |
| `WriteAheadLog.CompactionPreserves` | billingqueue/queue.go:688-703 | the compacted file means the same entries with nothing left to reclaim |
| `LogReplay.HeadIsFirst` | billingqueue/queue.go:648-668 | an entry is removable exactly when it is first in its channel's queue |
| `LogReplay.ReplayWal` | billingqueue/queue.go:582-686 | the one-pass replay with its three indexes computes the meaning of the file, which `LogIntegrity.IntactExactly` states exactly, and where its last whole frame ends |
| `LogIntegrity.IntactExactly` | billingqueue/queue.go:582-686 | replay accepts a file exactly when it is the header, frames whose digests chain from zero and whose steps all make sense, and a tail without a complete frame; the log is what the frames mean |
| `LogIntegrity.CompleteIsPieces` | billingqueue/queue.go:582-686 | a file that ends with a whole frame is nothing but its frames |
| `LogIntegrity.DigestIsChecked` | billingqueue/queue.go:614-625 | an accepted file in which the digest of any one frame is changed, whatever comes behind it, is refused |
| `LogIntegrity.LastDigestBindsFile` | billingqueue/queue.go:552-686 | two accepted files whose logs end in the same digest have the same frames byte for byte, or they exhibit a weakness of the digest |
| `LogIntegrity.AcceptedIsFifo` | billingqueue/queue.go:648-668 | whatever file replay accepts, also one this queue never wrote, removes from each channel in the order of its enqueues |
| `QueueObject.BrokenIsCollision` | billingqueue/queue.go:552-580 | a weakness of the frame digest is a collision of SHA-256 or an input with the value zero |
| `SettlementQueue.EnqueueKeepsValid` | billingqueue/queue.go:206-263 | after an enqueue, memory and file agree and every limit and quota holds, whatever the disk did |
| `SettlementQueue.RemoveKeepsValid` | billingqueue/queue.go:375-410 | the same for a removal with the compaction it may trigger; no counter underflows |
| `QueueRuns.ChannelFifo` | billingqueue/queue.go:346-410 | in any run, what was removed from a channel followed by what is live in it is what was enqueued into it |
| `QueueRuns.ReopenRestores` | billingqueue/queue.go:115-196 | reopening the file of a queue that was not poisoned, if within the replay ceiling, restores it field for field |
| `QueueRuns.EnqueueCrash` | billingqueue/queue.go:240-262 | whatever part of an enqueue reached the disk, the file means the queue before it, or after it exactly when the last byte is there |
| `QueueRuns.RemovalCrash` | billingqueue/queue.go:375-396 | the same for a removal |
| `QueueRuns.CompactionCrash` | billingqueue/queue.go:466-481 | a failed or crashed compaction leaves the old file or the new one, with the same entries |
| `QueueRuns.LiveSizeBound` | billingqueue/queue.go:483-514 | the live size of a valid log is at most what the limits were checked for |
| `QueueRuns.StepKeepsLean` | billingqueue/queue.go:397-464 | while less than 8 MiB of the file is garbage no step makes it longer than the largest live file plus 8 MiB plus one remove frame |
| `QueueRuns.OwnFileReopens` | billingqueue/queue.go:455-533 | while due compactions complete, garbage stays under 8 MiB and Open never rejects the queue's own file |
| `QueueRuns.StepAppends` | billingqueue/queue.go:552-731 | a step that made the file longer appended one frame and moved the log by that frame |
| `QueueRuns.CutRestoresHistory` | billingqueue/queue.go:582-686 | between compactions, a cut file restores the queue after exactly the operations whose frames it holds |
| `QueueRestarts.SurvivorMeans` | billingqueue/queue.go:375-481 | whatever a crash during any operation leaves on disk, the file means the queue before it, after it, or after it and compacted |
| `QueueRestarts.RestartExactly` | billingqueue/queue.go:115-196 | reopening after a crash succeeds exactly when the file is within the replay ceiling, and then gives that queue field for field |
| `QueueRestarts.FifoAcrossRestarts` | billingqueue/queue.go:115-410 | through any number of operations, crashes and restarts, what was removed from a channel followed by what is live in it is what was enqueued into it |
| `QueueRestarts.AlwaysReopens` | billingqueue/queue.go:115-196 | as long as no crash loses an overdue compaction, whatever the next crash leaves is accepted |
| `QueueRestarts.LostCompactionGrows` | billingqueue/queue.go:397-464 | a crash that loses an overdue compaction finds it overdue from an earlier crash and leaves as much to reclaim, or comes right after the frame of a removal and leaves a longer file with more to reclaim; opening does not compact it |
| `QueueRestarts.FullFrame` | billingqueue/queue.go:375-464 | at every accepted removal, whatever there is to reclaim, a crash right after its frame is possible, makes the file longer by that frame, and reopening gives the queue without the entry or refuses the file |
| `QueueRestarts.SkippedAddUp` | billingqueue/queue.go:115-464 | through any lives without a compaction n such crashes make the file at least n remove frames longer, so only a bounded number can be survived |
| `QueueRestarts.GrowsUntilRefused` | billingqueue/queue.go:115-464 | for all limits and every envelope that fits a new queue there are lives of enqueues and such crashes, each survived, until the next one leaves a file the queue refuses to open |
| `QueueObject.OneHeadPerChannel` | billingqueue/queue.go:284-301 | every live channel has exactly one head, the first of its entries |
| `QueueObject.HeadsAreRemovable` | billingqueue/queue.go:346-373 | RemoveChannelHead accepts exactly the entries ChannelHeads lists |
| `QueueObject.FindChannelHead` | billingqueue/queue.go:346-373 | finds the entry of an identifier exactly when no earlier entry shares its channel |
| `QueueObject.CountUsage` | billingqueue/queue.go:168-196 | rebuilds the identifiers and per-payer usage and reports a payer over quota |
| `QueueAcceptance.EnqueueExactly` | billingqueue/queue.go:206-263 | an envelope is refused with nothing changed, and with which error, exactly by the live entries and limits: first a live voucher, then room, then the share of its payer; otherwise its frame, or the written part of it, goes to the disk and its entry, once the frame is whole, behind the others |
| `QueueAcceptance.TargetExactly` | billingqueue/queue.go:329-373 | a removal finds exactly the first entry of all, or of its channel, that has the identifier |
| `QueueAcceptance.RemoveExactly` | billingqueue/queue.go:329-481 | a removal is refused with nothing changed, and with which error, or takes out exactly the entry it names: a frame of 101 bytes goes to the disk, and the file is rewritten exactly when at least 1 MiB of it is garbage and that is as much as is live or 8 MiB |
| `QueueAcceptance.OpenExactly` | billingqueue/queue.go:115-196 | a file is opened exactly when the limits make sense, it is within the replay ceiling, it is intact and no payer is over its limits; the queue then has the entries of its log and a file that ends with the last whole frame |
| `QueueObject.Queue.EnqueueEnvelope` | billingqueue/queue.go:206-263 | the object does what the queue step says, error by error; `QueueAcceptance.EnqueueExactly` states which envelopes that step accepts |
| `QueueObject.Queue.Remove` | billingqueue/queue.go:329-344 | removes only the global head |
| `QueueObject.Queue.RemoveChannelHead` | billingqueue/queue.go:346-373 | removes the head of any channel |
| `QueueObject.Queue.ChannelHeads` | billingqueue/queue.go:284-301 | refuses a closed or poisoned queue, and otherwise lists exactly the heads in global order |
| `QueueObject.Queue.CompactFile` | billingqueue/queue.go:466-481 | replaces file, sizes, hash and counters together |
| `MessageCodec.PaddedReadsBack` | network/Message.go:71-88 | a padded field gives back a string exactly when it is short enough and does not end in zero |
| `MessageCodec.HeaderArrives` | network/Message.go:59-262 | every header that can be written is read, as what arrives |
| `MessageCodec.HeaderUnchanged` | network/Message.go:59-262 | a header arrives unchanged exactly when its names fit, its version is 1 and a 128-byte route carries no leg flags |
| `MessageCodec.LongRouteDropsFlags` | network/Message.go:227-231 | a concrete header whose flags are lost because a 128-byte route leaves no room for them |
| `MessageCodec.WriteHeader` | network/Message.go:171-262 | filling the buffer in place with a running index writes exactly the laid-out header, or fails exactly when it does not fit |
| `MessageCodec.MessageReadsBack` | network/Message.go:264-364 | every message that can be written is read back with its payload, and unchanged exactly when its header arrives unchanged and states the right length |
| `WireFormats.HeaderExactly` | network/Message.go:59-169 | 254 bytes are a header exactly when they begin with the magic and version 1 and announce a route of at most 128 bytes |
| `WireFormats.HeaderMeans` | network/Message.go:59-169 | where each field of a header lies, and which are missing behind a long route |
| `WireFormats.WritesExactly` | network/Message.go:171-262 | the writer refuses exactly a route or leg session that is too long, a part that is used and has no room behind the route, and billing that is incomplete |
| `WireFormats.TrimExactly` | network/Message.go:71-88 | a padded field means what is left without its zeros at the end |
| `FrameCodec.FrameReadsBack` | network/Frame.go:91-215 | a frame is read back whole, whatever follows it on the stream |
| `WireFormats.FrameExactly` | network/Frame.go:126-186 | bytes begin with a frame exactly when they begin with the magic, the little-endian fields at their places, a payload length of at most 1 MiB and the connection and payload announced |
| `Bytes.LastCountsMost` | network/Frame.go:91-119 | little-endian: the last byte counts most |
| `WireFormats.FrameWritesExactly` | network/Frame.go:77-124 | a frame is written exactly when connection and payload are short enough, as the only bytes that are read as it |
| `WireFormats.ReadExactly` | network/Frame.go:188-215 | a frame is read off a stream exactly when the stream begins with one, and the rest is what follows |
| `FrameCodec.ParsedFramePrints` | network/Frame.go:126-186 | what parses starts with the print of what it parsed to |
| `FrameCodec.ReadFrames` | network/Frame.go:188-215 | any list of encodable frames comes off the stream as the same list, leaving what follows |
| `AckRanges.RunsAreExact` | network/Frame.go:419-437 | the runs of a list cover exactly its members |
| `AckRanges.SeqsToRanges` | network/Frame.go:419-437 | the loop computes the maximal runs |
| `AckRanges.MaximalIsUnique` | network/Frame.go:336-349 | two receivers that hold the same frames send the same ranges |
| `AckRanges.AckRangesReadBack` | network/Frame.go:363-396 | every encodable range list is read back |
| `WireFormats.AckExactly` | network/Frame.go:379-396 | bytes are ranges exactly when they hold as many pairs of four-byte numbers as the first two bytes say, and the range at each place is that pair |
| `FrameAssembly.SplitToFrames` | network/Message.go:313-354 | full frames and a rest, numbered from zero, whose payloads are the message; fails exactly when the message cannot be encoded or needs too many frames |
| `FrameAssembly.AssembleFrames` | network/Frame.go:221-262 | succeeds exactly on frames that can be arranged, in whatever order they come, and then reads the arranged payload |
| `FrameAssembly.ArrangementIsUnique` | network/Frame.go:221-262 | there is at most one such arrangement |
| `FrameAssembly.SplitAssembles` | network/Message.go:313-364 | the frames of a message mean the message that was sent |
| `Assembler.FrameAssembler.Add` | network/Frame.go:285-327 | the buffers change as the step says; the last missing frame yields the message, whatever order the map gives |
| `Assembler.AddFrameCases` | network/Frame.go:285-327 | a well-formed frame is known already, is stored, or completes its message |
| `Assembler.AssembleMap` | network/Frame.go:312-326 | assembling the collected frames gives what the ordered frames mean |
| `Assembler.SnapshotIsExact` | network/Frame.go:336-349 | a snapshot is maximal and covers exactly the frames held |
| `Assembler.FrameAssembler.Snapshot` | network/Frame.go:336-349 | the loop over the map computes that snapshot |
| `AckTracking.AckTracker.Update` | networkFrameWork/AckTracker.go:37-46 | marks exactly the frames the ranges cover; does not return exactly when a range ends at 2^32-1, where the counter wraps |
| `AckTracking.AckTracker.Complete` | networkFrameWork/AckTracker.go:49-53 | true when every frame is marked, and, as long as only frames are marked, exactly then |
| `AckTracking.CountIsTrusted` | networkFrameWork/AckTracker.go:37-53 | the count decides completeness for all marks below a bound exactly when the bound is at most the number of frames: one mark beyond the last frame can hide a missing one |
| `AckTracking.StrayAck` | networkFrameWork/AckTracker.go:37-53 | the ACK that does it, for every number of frames: one range from the second frame to one beyond the last counts as complete and leaves out the first frame |
| `AckTracking.StrayAckSucceeds` | networkFrameWork/TcpStream.go:836-945 | a send whose only answer is that ACK succeeds without its first frame |
| `AckTracking.AckTracker.Missing` | networkFrameWork/AckTracker.go:63-73 | lists exactly the unmarked frames, ascending |
| `AckTracking.SendLoop` | networkFrameWork/TcpStream.go:836-945 | success means as many marks as frames, and every frame acknowledged if the ACKs name frames of the message only; each of at most six retransmissions holds exactly what is missing, and is made only while the count is short; otherwise the call was aborted, seven waits ended short, or an ACK was counted through without end |
| `StreamObject.Stream.HandleData` | networkFrameWork/TcpStream.go:1385-1474 | the object handles a data frame as the receiver step says, replay window included |
| `StreamObject.Stream.OpenMessage` | networkFrameWork/TcpStream.go:1425-1441 | a record that opens is asked of the ring of the replay window, and handed over, dropped or rejected as its observation says |
| `StreamObject.Stream.NextMessage` | networkFrameWork/TcpStream.go:646-680 | a message that came before the suite is opened and screened when it is read |
| `StreamObject.Stream.CountFrame` | networkFrameWork/TcpStream.go:1398-1472 | a frame that waits is counted, and a full batch is answered with what is held |
| `StreamObject.Stream.AnswerIdle` | networkFrameWork/TcpStream.go:1477-1515 | the idle timer answers with what is held |
| `StreamObject.Stream.HandleAck` | networkFrameWork/TcpStream.go:1316-1341 | an ACK marks frames of its own pending message only; a malformed one changes nothing, and one that is counted through without end does not return |
| `ArqAnswers.AnswersInRun` | networkFrameWork/TcpStream.go:1354-1474 | in every run each frame that arrives has exactly the answer it should have: everything if its message was delivered or is completed by it and not rejected, what is held if it is the hundredth that waits since the last answer, and otherwise nothing |
| `ArqAnswers.JudgedExactly` | networkFrameWork/TcpStream.go:1410-1459 | what becomes of every completed message: handed over as it is without a suite; rejected if it does not open or its record has no usable ID of the session; dropped as a repetition exactly when its sequence is not new; otherwise handed over, unless the stream closes |
| `ArqAnswers.ClosedStays` | networkFrameWork/TcpStream.go:1527-1542 | from the moment a receiver closes it hands over, stores and answers nothing |
| `ArqAnswers.SecondSuiteCloses` | networkFrameWork/TcpStream.go:440-453 | a second suite closes the stream |
| `ArqSafety.GenuineIsAccepted` | networkFrameWork/TcpStream.go:1395-1410 | a frame of a sent message is never an error for the receiver: it is known, stored, or completes exactly that message |
| `ArqSafety.UnhandledIsNotWhole` | networkFrameWork/TcpStream.go:1414-1470 | the frames ever acknowledged are all frames only once the message is handled |
| `ArqSafety.StepKeeps` | networkFrameWork/TcpStream.go:836-1515 | every step of sender, receiver, network and timer keeps the invariant |
| `ArqSafety.SuccessIsHandled` | networkFrameWork/TcpStream.go:836-1474 | in every run over a lossy network: success means handed over or judged a repetition and never rejected, no ID is handed over twice, everything handed over is the message sent, opened if there was a suite |
| `ArqReplay.StepScreens` | networkFrameWork/TcpStream.go:1410-1459 | every step keeps: each accepted sequence has one source, a message that carries it, and the fate of each completed message is the verdict of the window it met |
| `ArqReplay.JudgedOnArrival` | networkFrameWork/TcpStream.go:1410-1441 | that window is the one at the step whose frame completed the message |
| `ArqReplay.Reliable` | networkFrameWork/TcpStream.go:836-1474 | in every run: a send that succeeds was handed over exactly when it was new on arrival; one that was not carries the session and sequence of another message that was handed over, or was at least 65536 behind the highest accepted |
| `ArqReplay.DroppedSucceeds` | networkFrameWork/TcpStream.go:1432-1438 | from every state in which the last frame of a repetition arrives, the send can succeed although nothing is handed over |
| `ArqReplay.OvertakenSucceeds` | networkFrameWork/e2e_replay.go:40-44 | a concrete run in which a message succeeds that nobody received: record 1 is overtaken by record 65537 and taken for a repetition |
| `ArqReading.NothingReadTwice` | networkFrameWork/TcpStream.go:646-680 | in every run the application reads messages that were sent, each at most once, and no two opened records with the same sequence |
| `ArqProgress.DataContinues` | networkFrameWork/TcpStream.go:1385-1474 | a frame of a message of at most 131070 frames whose opening is no error leaves the stream open and confirms the message or stores one frame more |
| `ArqProgress.ReportsFitExactly` | network/Frame.go:363-377 | reporting on a message never closes the stream exactly when it has at most 131070 frames: of a longer one every second frame may be there, and the ranges do not fit an ACK |
| `ArqProgress.Recovery` | networkFrameWork/TcpStream.go:857-894 | from every state with an open receiver one retransmission that arrives, and at most one ACK, make a pending message of at most 131070 frames whose opening is no error succeed |
| `ArqOverflow.LongMessageCloses` | networkFrameWork/TcpStream.go:1398-1515 | from every state with an open receiver that has seen nothing of a message of more than 131070 frames: its even frames arrive, every batch ACK fits, and the report of the idle timer closes the stream |
| `ArqOverflow.OverflowRun` | networkFrameWork/TcpStream.go:836-1515 | every such message that is sent first has a run from the beginning in which it closes the stream |
| `ArqOverflow.LongSampleCloses` | network/Frame.go:363-377 | a concrete such run, whatever the suite: a message of 131071 bytes sent one byte to a frame |
| `HoldbackRules.ApprovedExactly` | networkFrameWork/billing_holdback.go:798-885 | for every configuration, a message is approved exactly when it is meant for its connection, is as long as it says, deserves the approval and the phase permits it; it is put off exactly when it could be billed and the hook asks for it |
| `HoldbackRules.PreludeExactly` | networkFrameWork/billing_holdback.go:896-921 | which bytes are a prelude and of which kind: hello, one of three handshake messages or one of two confirmations |
| `HoldbackRules.PreludeKinds` | networkFrameWork/billing_holdback.go:896-921 | two preludes are of the same kind exactly when magic and type byte agree |
| `HoldbackRules.ValidatePermits` | networkFrameWork/billing_holdback.go:798-885 | an approval is one the phase permits, for every configuration |
| `HoldbackRules.PhaseRemembers` | networkFrameWork/billing_holdback.go:697-700 | a connection that was let anything through has a phase |
| `HoldbackRules.OneWay` | networkFrameWork/billing_holdback.go:798-885 | in a legal history no prelude repeats, there are at most four, none follows handshake information or billing; handshake information comes once and before billing; a bound session never changes |
| `HoldbackRules.UnpaidAdds` | networkFrameWork/billing_holdback.go:798-885 | what counts as unpaid: the payload of each prelude and each handshake information, and nothing else |
| `HoldbackRules.UnpaidIsBounded` | networkFrameWork/billing_holdback.go:798-921 | however many messages pass a connection, what passes unpaid is at most 128 KiB besides keep-alives with empty plaintext, and every billed record was accepted by the hook |
| `HoldbackTally.TotalRemove` | networkFrameWork/billing_holdback.go:647-686 | taking any entry out of a sum takes out exactly its share, so a sum over the live entries does not depend on their order |
| `HoldbackTally.SumReplace` | networkFrameWork/billing_holdback.go:321-335 | putting an entry in changes the sums by exactly the difference |
| `Holdback.RemoveKeeps` | networkFrameWork/billing_holdback.go:647-700 | removing an entry keeps counters, list, nodes, phases and limits, and drops only a record with nothing to remember |
| `HoldbackSteps.AddDataValid` | networkFrameWork/billing_holdback.go:201-343 | every frame, accepted or refused by any limit, keeps the whole invariant |
| `HoldbackSteps.StoredSound` | networkFrameWork/billing_holdback.go:281-335 | a frame that passed the limit checks leaves every pending limit intact |
| `HoldbackApproval.EvictOldestKeeps` | networkFrameWork/billing_holdback.go:617-626 | global eviction restores the global limits on approved messages |
| `HoldbackApproval.EvictAtKeeps` | networkFrameWork/billing_holdback.go:627-645 | per-connection eviction restores the limits of the connection |
| `HoldbackApproval.ApproveValid` | networkFrameWork/billing_holdback.go:461-519 | a permitted approval keeps the whole invariant, limits on approved messages included |
| `HoldbackRuns.StepKeeps` | networkFrameWork/billing_holdback.go:201-796 | every step, with validations interleaved with arrivals, expiries, resets and forgets, keeps the invariant |
| `HoldbackRuns.ReleasedWasApproved` | networkFrameWork/billing_holdback.go:729-796 | every frame let through belongs to a message assembled whole and approved, and is its frame or has the same digest; which frames are let through, and when, is stated by `HoldbackReleases` |
| `HoldbackReleases.AdmissionReleases` | networkFrameWork/billing_holdback.go:461-519 | in every run, when a message is admitted all its frames are let through at once: exactly one for each number, in ascending order, as they were held |
| `HoldbackReleases.ReleasedExactly` | networkFrameWork/billing_holdback.go:201-343 | in every run a frame that arrives is let through at once exactly when it repeats, as far as the digest tells, a frame of a message that is approved at that moment; no other step that admits nothing lets anything through |
| `HoldbackReleases.TakenInExactly` | networkFrameWork/billing_holdback.go:201-343 | a frame is taken in exactly when it is a new one of a message that is not complete and within every limit, counted over the live entries; the last frame of a message that was put off may recall it; otherwise every entry stays as it is |
| `HoldbackReleases.WholeExactly` | networkFrameWork/billing_holdback.go:321-343 | frames are a message exactly when every number is there and their payloads, in ascending order, are one |
| `HoldbackReleases.SentIsWhole` | network/Message.go:313-364 | every message that was sent in frames is whole once all of them are held |
| `HoldbackRuns.ApprovedByRuling` | networkFrameWork/billing_holdback.go:753-791 | approval happens only by a ruling on the whole message in the phase its connection is in at that moment |
| `HoldbackRuns.CountersAreSums` | networkFrameWork/billing_holdback.go:259-720 | in every reachable state all counters are the sums over the live entries, the approved list is exact and all limits hold |
| `HoldbackEvents.CountersCount` | networkFrameWork/billing_holdback.go:259-335 | the message counters are the numbers of entries that wait and that are approved, of the gate and of each connection |
| `HoldbackEvents.LimitsHold` | networkFrameWork/billing_holdback.go:259-335 | in every run, of the whole gate and of each connection, waiting and approved messages, their frames and bytes keep the limits; so do each message and the number of records |
| `HoldbackEvents.OldestAreEvicted` | networkFrameWork/billing_holdback.go:617-626 | to keep the limits of the gate the oldest approved messages are dropped, and no more than needed |
| `HoldbackEvents.OldestAtAreEvicted` | networkFrameWork/billing_holdback.go:627-645 | to keep the limits of a connection its oldest approved messages are dropped, and no more than needed |
| `HoldbackEvents.ApprovalEvicts` | networkFrameWork/billing_holdback.go:461-519 | an approval drops exactly these, first of the gate and then of the connection |
| `HoldbackEvents.EntriesExactly` | networkFrameWork/billing_holdback.go:399-579 | what every event other than an arrival does to the messages: a ruling removes, puts off or replaces by its digests the one under check, and each other event touches exactly its own |
| `HoldbackEvents.RecordsInUse` | networkFrameWork/billing_holdback.go:688-700 | in every run a connection is on record only while it has a message in the gate or was let something through |
| `HoldbackEvents.NextExactly` | networkFrameWork/billing_holdback.go:431-459 | of the messages put off for a node and session the next to be tried has the least billing sequence, and among those the least ID |
| `HoldbackRuns.PhasesAreLegal` | networkFrameWork/billing_holdback.go:798-885 | what each connection was let through obeys the rules from its first message on |
| `HoldbackRuns.PastOnlyGrows` | networkFrameWork/billing_holdback.go:542-720 | from any moment until a connection is forgotten or expires its past only grows, through resets, evictions and removals |
| `HoldbackRuns.LetThrough` | networkFrameWork/billing_holdback.go:542-885 | over that interval what the connection was let through earlier still counts, and with everything since it obeys the one-way order in one session |
| `HoldbackRuns.RulingTakesEffect` | networkFrameWork/billing_holdback.go:461-519 | a ruling that approves a message that is still there always takes effect: the phase it read is the phase of the connection |
| `HoldbackUnpaid.StepRecord` | networkFrameWork/billing_holdback.go:201-796 | every step but the forgetting or expiry of a connection adds to its record exactly what the step lets through on it |
| `HoldbackUnpaid.PassingIsAdmission` | networkFrameWork/billing_holdback.go:461-519 | what a step lets through on a connection is what it admits: the message is the one assembled from the admitted frames |
| `HoldbackUnpaid.PassedInRun` | networkFrameWork/billing_holdback.go:461-885 | in every run, from an empty record until the connection is forgotten or expires, the messages let through were validated one after the other, each in the phase the earlier ones left |
| `HoldbackUnpaid.UnpaidInRun` | networkFrameWork/billing_holdback.go:798-921 | in every run a connection is let through at most 128 KiB unpaid over that interval, besides keep-alives with empty plaintext, and every billed record was accepted by the hook |
| `HoldbackUnpaid.NothingOnRecord` | networkFrameWork/billing_holdback.go:542-556 | nothing is on record at first, and nothing once the connection was forgotten |
| `HoldbackObject.MessageHoldback.AddFrame` | networkFrameWork/billing_holdback.go:201-343 | the object takes in a frame as the step says |
| `HoldbackObject.MessageHoldback.ApproveMessage` | networkFrameWork/billing_holdback.go:461-519 | the object approves as the step says, and a permitted approval keeps it consistent |
| `HoldbackObject.MessageHoldback.NextDeferred` | networkFrameWork/billing_holdback.go:431-459 | takes up a deferred message that no other of its node and session comes before, by billing sequence and then ID, or finds that there is none |
| `HoldbackObject.MessageHoldback.RemoveEntry` | networkFrameWork/billing_holdback.go:647-695 | the object removes an entry as the step says |
| `HoldbackObject.MessageHoldback.DeferMessage` | networkFrameWork/billing_holdback.go:399-429 | a message is put off exactly when it is the live one of its key and under validation or put off already |
| `HoldbackObject.MessageHoldback.ForgetConnection` | networkFrameWork/billing_holdback.go:542-556 | removes every entry of the connection and its record |
| `HoldbackObject.MessageHoldback.ResetConnection` | networkFrameWork/billing_holdback.go:558-579 | removes every entry and keeps the record exactly when it has a phase |
| `ReplayWindow.BitOf` | networkFrameWork/e2e_replay.go:67-70 | setting and clearing a bit of a word touch that bit only |
| `ReplayWindow.OccupantIsLatest` | networkFrameWork/e2e_replay.go:67-70 | a slot stands for exactly one sequence of the window |
| `ReplayWindow.ReplayWindow.Advance` | networkFrameWork/e2e_replay.go:54-65 | moving the window, by any distance, forgets exactly what falls out of it |
| `ReplayWindow.ReplayWindow.ObserveId` | networkFrameWork/e2e_replay.go:24-52 | the ring of bits decides exactly as the set of all accepted sequences does |
| `ReplayWindow.NoSequenceTwice` | networkFrameWork/e2e_replay.go:24-70 | in no run is a sequence accepted twice |
| `ReplayWindow.FreshExactly` | networkFrameWork/e2e_replay.go:24-52 | a well-formed ID of the session is fresh exactly when its sequence was never accepted and is less than 65536 behind every accepted one |
| `ReplayWindow.ObservedExactly` | networkFrameWork/e2e_replay.go:24-52 | every ID after every run: invalid exactly when it is not 44 bytes with epoch and sequence, foreign exactly when the first usable one was of another session, seen exactly when its sequence was accepted or is 65536 behind an accepted one |
| `RecordIds.RecordSender.NewMessageId` | crypoto/NoisePackage.go:621-663 | the object issues as the function says, epoch, sequence and ring included |
| `RecordIds.RecordSender.Encrypt` | crypoto/NoisePackage.go:496-543 | the object seals or refuses as the function says, refusal by refusal; `RecordSealing.EncryptExactly` states when |
| `RecordIds.ContentsAreUnique` | crypoto/NoisePackage.go:665-678 | different payload or associated data means different digest input |
| `RecordIds.NoStaleEpoch` | crypoto/NoisePackage.go:621-638 | an ID is issued only in an epoch that has bytes and time left, with the next sequence |
| `RecordIds.TrackFull` | crypoto/NoisePackage.go:646-663 | a full ring drops its oldest ID and holds the latest ones in order |
| `RecordIds.OneContentPerId` | crypoto/NoisePackage.go:496-543 | in any run all records sealed under one ID have the same payload and associated data, or they are a digest collision |
| `RecordIds.NeverReissued` | crypoto/NoisePackage.go:621-644 | IDs are numbered without gap or repetition across epochs, up to the nonce limit of section 5.1 of the Noise Protocol Framework |
| `RecordIds.LatestAreUsable` | crypoto/NoisePackage.go:513-524 | an issued ID is known to the sender exactly while it is one of the latest 65536; `RecordSealing.EncryptExactly` says that it can then be used |
| `RecordSealing.EncryptExactly` | crypoto/NoisePackage.go:496-543 | in every run a call with an ID adds a record of that ID, payload and associated data exactly when there is a key, the ID is one of the latest 65536 issued and all sealed under it so far has the same content digest; the bytes of the epoch grow only with the first |
| `RecordSealing.NewExactly` | crypoto/NoisePackage.go:496-543 | in every run a call without an ID issues the next one exactly while numbers and epochs are left and, given a key, seals under it; an epoch that is over starts counting at zero |
| `RecordSealing.IssueExactly` | crypoto/NoisePackage.go:621-644 | the next ID is issued exactly while numbers and epochs are left, in the epoch that is due |
| `RouteTable.RemovedKeeps` | networkFrameWork/FrameRouteRegistry.go:254-278 | taking out any live pairs keeps maps, index, list and count consistent |
| `RouteTable.ExpireKeeps` | networkFrameWork/FrameRouteRegistry.go:223-241 | expiry removes exactly the overdue pairs and leaves none |
| `RouteTable.DueIsOverdue` | networkFrameWork/FrameRouteRegistry.go:223-241 | with a clock that does not go back the due front of the list is all that is overdue |
| `RouteRuns.BindOutcome` | networkFrameWork/FrameRouteRegistry.go:120-162 | after expiry two free IDs are bound unless no room can be made, an existing pair is found, and a conflicting one is refused |
| `RouteRuns.RoomIsGood` | networkFrameWork/FrameRouteRegistry.go:243-252 | room is made without losing an unfinished pair, and cannot be made exactly when the table is full of unfinished pairs |
| `RouteRuns.CompleteIsGood` | networkFrameWork/FrameRouteRegistry.go:164-178 | a completed pair stays, with its entries, and no other unfinished pair is lost |
| `RouteRuns.PurgeIsExact` | networkFrameWork/FrameRouteRegistry.go:180-190 | purging a connection takes out exactly its pairs |
| `RouteRuns.StepKeeps` | networkFrameWork/FrameRouteRegistry.go:96-278 | every operation keeps maps, index, list, order and count; only completion and purge touch unfinished pairs |
| `RouteRuns.ThereAndBack` | networkFrameWork/FrameRouteRegistry.go:473-619 | in every reachable table the entries the two pumps stored mirror each other: a frame goes out under an ID whose way back leads to the ID it came in under, on both sides and on the same connection |
| `RouteRuns.StepMirrors` | networkFrameWork/FrameRouteRegistry.go:473-484 | each pump call and every other operation keeps the stored entries mirrored; the table itself checks nothing about them |
| `RouteRuns.BoundIsMirror` | networkFrameWork/FrameRouteRegistry.go:128-136 | a pump that finds an existing pair, and drops the entries it made, goes on with entries to the same IDs and connection |
| `RouteRuns.CountIsExact` | networkFrameWork/FrameRouteRegistry.go:120-278 | the pair count equals the size of both sides and never exceeds the limit |
| `RouteRuns.UnfinishedStays` | networkFrameWork/FrameRouteRegistry.go:207-252 | from any moment until its completion or the purge of its connection an unfinished pair stays, with its entries |
| `RouteRuns.NoOverdueRemains` | networkFrameWork/FrameRouteRegistry.go:223-241 | no overdue tombstone remains after an operation that looks at the clock |
| `RouteLifetimes.StepFollows` | networkFrameWork/FrameRouteRegistry.go:96-278 | every operation and every pair: it leaves exactly when it is overdue at an operation that looks at the clock, is the oldest finished one where room is needed, or is purged; otherwise it is as it was, except that one that is asked for expires a lifetime from now |
| `RouteLifetimes.EvictedIsOldest` | networkFrameWork/FrameRouteRegistry.go:243-252 | only the finished pair that would expire first is evicted, and only from a full table |
| `RouteLifetimes.FinishedStays` | networkFrameWork/FrameRouteRegistry.go:207-252 | in every run a finished pair stays, with its entries, until its time is over, its connection is purged or the table is full |
| `RouteLifetimes.OneLifetime` | networkFrameWork/FrameRouteRegistry.go:96-118 | in every run a finished pair that is asked for stays for one lifetime from then on |
| `RouteLifetimes.ThenForgotten` | networkFrameWork/FrameRouteRegistry.go:223-241 | once its time is over a finished pair is gone after the next operation that looks at the clock |
| `RouteObject.RouteRegistry.RemovePair` | networkFrameWork/FrameRouteRegistry.go:254-278 | the object takes out a pair as the function says, or leaves one alone that was removed before, and stays consistent |
| `RouteObject.RouteRegistry.ExpirePairs` | networkFrameWork/FrameRouteRegistry.go:223-241 | the loop at the front of the list expires what is due |
| `RouteObject.RouteRegistry.BindIds` | networkFrameWork/FrameRouteRegistry.go:120-162 | the object binds, with the entries of the caller, as the function says and stays consistent |
| `RouteObject.RouteRegistry.GetRelay` | networkFrameWork/FrameRouteRegistry.go:96-106 | looks up and touches a relay ID after expiry |
| `RouteObject.RouteRegistry.GetClient` | networkFrameWork/FrameRouteRegistry.go:108-118 | looks up and touches a client ID after expiry |
| `RouteObject.RouteRegistry.RouteToClient` | networkFrameWork/FrameRouteRegistry.go:462-487 | the entry the pump towards the clients goes on with is stored under its ID, and its way back leads to that ID |
| `RouteObject.RouteRegistry.RouteToRelay` | networkFrameWork/FrameRouteRegistry.go:600-620 | the same for the pump towards the relay, which binds only for a first frame |
| `RouteObject.RouteRegistry.CompleteRoute` | networkFrameWork/FrameRouteRegistry.go:164-178 | completes a pair unless it was removed |
| `RouteObject.RouteRegistry.PurgeRoutes` | networkFrameWork/FrameRouteRegistry.go:180-190 | removes the pairs of a connection one by one, in any order |
| `AckAccounting.ContainsIsSubset` | networkFrameWork/frame_adapter.go:1832-1844 | against ranges with gaps, containment range by range is containment of the covered sets |
| `AckAccounting.TouchingRangesAreRefused` | networkFrameWork/frame_adapter.go:1832-1844 | without the gap it is stricter: a concrete superset that is refused |
| `AckAccounting.ValidAckRanges` | networkFrameWork/frame_adapter.go:1822-1830 | the scan accepts exactly ordered ranges below the frame count |
| `AckAccounting.PayloadRangeSize` | networkFrameWork/frame_adapter.go:1846-1856 | adds up the sizes of a stretch, or reports an unknown one |
| `AckAccounting.Progress.Acknowledge` | networkFrameWork/frame_adapter.go:1765-1820 | credits exactly the newly covered frames and bytes; a stale or malformed ACK changes nothing |
| `AckAccounting.CreditsAreExact` | networkFrameWork/frame_adapter.go:1765-1856 | over any run the credits add up to exactly the frames and bytes of the covered set |
| `AckAccounting.AccountExactly` | networkFrameWork/frame_adapter.go:1765-1820 | an ACK is credited exactly when it is one of the message, its ranges are in order, each range acknowledged before lies in one of them and all new sizes are known; the credit is the number and the bytes of the new frames |
| `AckAccounting.SnapshotsAreCredited` | network/Frame.go:336-349 | ACKs built from snapshots of a growing set, in any order of arrival, are credited exactly when they hold all credited before, and what is covered is the largest |
| `AckAccounting.IsFullFrameAck` | networkFrameWork/frame_adapter.go:1700-1721 | an ACK of the message is full exactly when its ranges are ranges of frames, leave no gap in the order they come in, and cover every frame |
| `AckAccounting.InOrderIsEnough` | networkFrameWork/frame_adapter.go:1700-1721 | ranges in order that cover every frame leave no gap |
| `Reordering.DrainReleases` | networkFrameWork/reassembler.go:65-76 | draining releases exactly the chunks up to the next gap, in order |
| `Reordering.DrainInto` | cmd/tunnel/mux/stream.go:64-76 | the loop computes that |
| `StripedConnection.Reassembler.PushChunk` | networkFrameWork/reassembler.go:43-86 | the object takes in a chunk as the function says |
| `StripedConnection.Reassembler.ReadBytes` | networkFrameWork/reassembler.go:89-106 | the reader gets ready bytes first, then the overflow error, then the end |
| `StripedConnection.StripedWriter.WriteStriped` | networkFrameWork/logical_conn.go:167-186 | full chunks and a rest, with consecutive numbers, to the legs in turn, that are exactly the bytes reported as written; the write ends early exactly when a leg fails, and that chunk uses up its number |
| `StripedConnection.IncomingLeg.DeliverSeq` | networkFrameWork/bridge_mux.go:654-692 | on a closed leg a chunk is dropped; with a hook it is pushed; without one it is kept on a striped leg and read from the leg itself on a lone one |
| `StripedConnection.IncomingLeg.SetDeliverHook` | networkFrameWork/bridge_mux.go:696-705 | attaching replays the early chunks in their order |
| `StripedConnection.ReaderGetsPrefix` | networkFrameWork/reassembler.go:43-115 | in every run the reader has got a prefix of what was written |
| `StripedConnection.EverythingArrives` | networkFrameWork/reassembler.go:43-86 | once every chunk arrived and was replayed, all that was written is with the reader, unless closed or overflowed |
| `StripedConnection.BufferIsBounded` | networkFrameWork/reassembler.go:77-86 | the reorder buffer never holds the next chunk and never exceeds 4096 |
| `StripedDelivery.UpToTheGap` | networkFrameWork/reassembler.go:43-86 | in every run, until a close or an overflow, the reader has or may have exactly the chunks before the first one that did not come, and exactly those behind it wait |
| `StripedDelivery.OverflowsExactly` | networkFrameWork/reassembler.go:77-86 | in every run the buffer overflows exactly when a chunk comes that is new and not the next while 4096 others wait |
| `StripedDelivery.ReadsExactly` | networkFrameWork/reassembler.go:89-106 | a read takes exactly the first ready bytes there is room for; without any it is told of an overflow, else of the end |
| `StripedDelivery.ClosedIsFinal` | networkFrameWork/reassembler.go:109-115 | in every run, once closed, what was ready then is all the reader still gets |
| `StripedDelivery.EarlyArePushed` | networkFrameWork/bridge_mux.go:696-705 | replaying the early chunks brings every one of them to the reassembler |
| `TunnelStream.TunnelStream.DeliverData` | cmd/tunnel/mux/stream.go:51-90 | the object takes in a chunk as the function says |
| `TunnelStream.TunnelStream.DeliverEnd` | cmd/tunnel/mux/stream.go:94-109 | a CLOSE closes only when everything below its number is there |
| `TunnelStream.EndMeansAll` | cmd/tunnel/mux/stream.go:51-205 | in every run the reader has a prefix, and when it sees the end it has exactly the bytes written |
| `TunnelStream.ClosedMeansReceived` | cmd/tunnel/mux/stream.go:83-109 | the stream closes only after every chunk was put into the reader's buffer |
| `TunnelStream.ArrivedMeansClosing` | cmd/tunnel/mux/stream.go:83-103 | once a CLOSE has arrived at any time and every chunk, in whatever order, the close is decided |
| `TunnelStream.UpToTheGap` | cmd/tunnel/mux/stream.go:51-90 | in every run the reader has or may have exactly the chunks before the first one that did not arrive, and exactly those behind it wait |
| `TunnelStream.ReadsExactly` | cmd/tunnel/mux/stream.go:119-146 | a read takes exactly the first bytes there is room for; without any it is told of the end exactly when the stream is closed |
| `Distance.XorInjective` | DHTable/Buket.go:266-278 | the distance from a node determines the other node |
| `Distance.ParseExactly` | DHTable/Buket.go:266-278 | an ID is a number exactly when it is one or more hexadecimal digits, of either case, behind at most one sign |
| `Distance.HexParses` | DHTable/Buket.go:266-278 | every number is read back from its hexadecimal digits |
| `NodeBucket.AddKeeps` | DHTable/Buket.go:28-60 | a bucket stays valid; a new node is listed exactly when there is room, and otherwise only cached |
| `NodeBucket.RemoveKeeps` | DHTable/Buket.go:72-89 | a removed node is replaced by the oldest cached one |
| `NodeBucket.TouchKeeps` | DHTable/Buket.go:113-138 | a touched node goes to the end and is healthy again |
| `NodeBucket.MaintainKeeps` | DHTable/Buket.go:175-263 | a maintenance that nothing disturbs keeps IDs unique and equal to the health keys, the sizes, and cached nodes unlisted |
| `NodeBucket.MaintainLoses` | DHTable/Buket.go:175-263 | a maintenance that nothing disturbs loses only a head that was due, silent and failed often enough (counted in 8 bits); what comes in was cached and answered |
| `NodeBucket.HeadSettles` | DHTable/Buket.go:202-239 | settling the probe of a node read at any earlier time keeps the list exact and the cache as it is, and loses exactly the probed node, exactly when it is still listed, was silent, failed often enough and was not active since |
| `NodeBucket.PlacedExactly` | DHTable/Buket.go:250-257 | listing a cached candidate that answered keeps the list exact and apart from the cache exactly when its ID is neither listed nor cached at that moment |
| `NodeBucket.PushedExactly` | DHTable/Buket.go:258-260 | putting a candidate back keeps list and cache apart exactly when its ID is not listed at that moment or the cache is full |
| `BucketRuns.StepKeepsExactly` | DHTable/Buket.go:28-263 | with every locked section a step of its own: a step keeps IDs unique, health exact, list, cache and candidates in hand apart, and every free place beside a cached node owed to a maintenance, exactly when it does not collide: no unlisted node is added that is in hand (unless list and cache are both full) or that is cached beside a free place, and no candidate is put back beside a place nobody owes |
| `BucketRuns.RunKeeps` | DHTable/Buket.go:28-263 | this holds in every run without a collision, whatever happens during the probes; once no maintenance is under way nodes wait in the cache only while the bucket is full |
| `BucketRuns.RunStaysBounded` | DHTable/Buket.go:28-263 | in every run, collisions included, list and cache keep their sizes, cached IDs are unique and health is kept of listed nodes only |
| `BucketRuns.StepLoses` | DHTable/Buket.go:28-263 | in whatever state a node leaves the list only by removal or by a probe it failed too often without activity since, and comes in only by being added, as the oldest cached one in place of a removed one, or by its answer |
| `BucketRuns.ListedTwice` | DHTable/Buket.go:242-261 | a concrete run that lists a node twice: it is added, and another removed, while its answer is awaited |
| `BucketRuns.ListedAndCached` | DHTable/Buket.go:242-261 | a concrete run that lists a node and caches it, so that its removal brings it back |
| `BucketRuns.CachedBesideRoom` | DHTable/Buket.go:242-261 | a concrete run that leaves a node cached beside a free place, although nobody added it meanwhile |
| `BucketRuns.Undisturbed` | DHTable/Buket.go:175-263 | the steps of one maintenance with nothing in between do what the undisturbed call does |
| `NodeRecency.AddExactly` | DHTable/Buket.go:28-60 | a node that is added goes to the end of the list, with refreshed health if listed and as a new one if there is room, and otherwise only into the cache; nothing else changes |
| `NodeRecency.RemoveExactly` | DHTable/Buket.go:72-89 | a removed node leaves the list, and the oldest cached one comes in at the end as a new one |
| `NodeRecency.TouchExactly` | DHTable/Buket.go:113-138 | a node that is active goes to the end with its health refreshed; nothing else changes |
| `NodeRecency.SettleExactly` | DHTable/Buket.go:202-239 | what settling a probe does to list and health, in each case |
| `NodeRecency.MaintainExactly` | DHTable/Buket.go:175-263 | a maintenance that nothing disturbs does nothing unless the first node was silent for the given time or never active, and otherwise settles a probe of it and fills the place of one it took out |
| `NodeRecency.RefillExactly` | DHTable/Buket.go:242-261 | a free place is taken by the first cached node that answers, as a new one, and those before it are given up |
| `NodeBucket.PushKeeps` | DHTable/ReplacementCache.go:24-46 | the cache stays unique and bounded and forgets nothing |
| `NodeBucket.StoreNode.AddNode` | DHTable/Buket.go:28-60 | the object adds as the function says |
| `NodeBucket.StoreNode.RemoveNode` | DHTable/Buket.go:72-89 | the object removes as the function says |
| `NodeBucket.StoreNode.Maintain` | DHTable/Buket.go:175-263 | the object, undisturbed, probes and replaces as the function says |
| `NodeBucket.StoreNode.Settle` | DHTable/Buket.go:202-239 | the object settles a probe of a node read earlier as the function says |
| `NodeBucket.StoreNode.Place` | DHTable/Buket.go:250-257 | the object lists a candidate, or tells that it is full, as the function says |
| `NodeBucket.StoreNode.Pop` | DHTable/ReplacementCache.go:49-60 | the oldest cached node comes out first |
| `RoutingTable.OneCovers` | DHTable/DHTTable.go:418-435 | two buckets never cover the same distance |
| `RoutingTable.CoveredExactly` | DHTable/DHTTable.go:418-435 | exactly the distances from 0 to 2^256-1 are covered |
| `RoutingTable.ListedWhereCovered` | DHTable/DHTTable.go:153-170 | a node is listed only in the bucket that covers its distance |
| `RoutingTable.SplitKeeps` | DHTable/DHTTable.go:438-495 | a split keeps the tiling and lists exactly the same nodes |
| `RoutingTable.AddKeeps` | DHTable/DHTTable.go:217-239 | adding loses no node; the new one is listed exactly when it was, or is in range and its bucket was not full |
| `RoutingTable.RemoveKeeps` | DHTable/DHTTable.go:241-251 | removing takes out exactly that ID |
| `RoutingTable.SettleKeeps` | DHTable/DHTTable.go:373-400 | settling a probe in a bucket, whatever was touched or settled since the node was read, keeps the table valid and loses exactly a node that was silent, failed often enough and was not active since |
| `RoutingTable.RunKeeps` | DHTable/DHTTable.go:192-495 | after any run, with probes settled at any time, the buckets tile all distances, hold their nodes, fit their size and cache nothing |
| `RoutingTable.NothingToRefill` | DHTable/DHTTable.go:217-239 | why a table is safe from the collisions of a lone bucket: in every reachable table a maintenance that dropped a node finds the cache empty and ends at once, without a candidate in hand |
| `NodeRecency.OneBucketChanges` | DHTable/DHTTable.go:241-400 | a removal, an activity and a settled probe change exactly the bucket that covers the distance, or that was probed |
| `NodeRecency.AddChanges` | DHTable/DHTTable.go:438-495 | an addition changes exactly the bucket for the node, which is cut in the middle of its range exactly when it is full afterwards; each half has the nodes of its distances, in their order and with their health |
| `NodeRecency.NowhereIsNotAdded` | DHTable/DHTTable.go:217-226 | a node that no bucket is for is not added |
| `NodeRecency.FirstIsLongestSilent` | DHTable/Buket.go:175-201 | in every run with a clock that does not go back, the first node of a bucket, the one a maintenance probes, has been silent at least as long as any other of its bucket |
| `RoutingTable.NodesExactly` | DHTable/DHTTable.go:253-274 | the nodes considered for the closest are all listed nodes, and no other |
| `RoutingTable.DhtTable.AddPeer` | DHTable/DHTTable.go:217-239 | the object adds and splits as the function says |
| `RoutingTable.DhtTable.SplitBucket` | DHTable/DHTTable.go:438-495 | the loop deals the nodes to the two halves |
| `RoutingTable.DhtTable.FindClosest` | DHTable/DHTTable.go:253-289 | the nearest min(count, all) nodes in order; those left out are no nearer |
| `RoutingTable.ClosestIsUnique` | DHTable/DHTTable.go:275-289 | the answer does not depend on how the sort treats equal distances, unless two listed IDs write the same number |

## Left out

- Files, fsync, rename, sockets, KCP, HTTP: only "bytes appended, possibly cut" and "anything sent may be lost" are kept.
- SHA-256, signatures, the Noise handshake, key derivation, the cipher and JSON: given from outside as functions.
- Legacy queue files and their migration, and the flat identity checks of an envelope: branches without an invariant.
- Wall-clock timers, goroutines and wake-ups: steps that may happen at any time.
- Buffers and records that Go shares by reference are values here; a reference that may outlive its record is a number.
- Frame and header parsing read slices by position; the in-place writer is modelled for the message header only.
- FrameAssembly.SplitToFrames: sizes are unbounded integers, so a frame size near 2^63 does not overflow.
- Pure-forwarder and frame-relay mode of a stream, the failover half of the frame adapter, and frameAckCoverage.
- Decryption of a received message: any function of the message, fixed for a run.
- The default holdback limits: limits are any non-negative numbers.
- HoldbackObject.MessageHoldback.DeferMessage: leaves out the retry delay and the deadline; a retry or an expiry may happen at any time.
- The billing hook's own state: its answer is chosen freely at each ruling.
- Route registry clear(): it ends a run.
- Reading from a leg that is not striped.
- Tunnel streams that are reset or whose session ends: only a CLOSE by the peer is modelled.
- RTT ranking, SetNodeHealth and the actual-range fields of a DHT bucket.
- NodeBucket.StoreNode.Maintain: the call with nothing in between; `BucketRuns` has its steps among any other calls.
- NodeBucket.MaintainKeeps: about the call with nothing in between; `BucketRuns.StepKeepsExactly` is about every step.
- NodeBucket.MaintainLoses: about the call with nothing in between; `BucketRuns.StepLoses` is about every step.
- Changes made to a bucket of a table other than through the table, by way of GetBuckets.
- Connection lifecycle, dialing, path routing, retransmit cache, admission, logging and command-line tools.
