# mmbus: a model and its proofs

mmbus is a publish/subscribe bus for processes on one machine. A publisher writes messages into a ring in shared
memory that any number of subscribers read, appends them to a write-ahead log on request, and a bridge carries them
to other machines over a byte stream. This project models those parts in Dafny and proves what each promises and
what holds across them.

`dafny verify dfyconfig.toml` checks everything.

| file | what it holds |
|---|---|
| `Bytes.dfy` | bytes, little-endian integers |
| `RingProtocol.dfy` | the ring as a step relation, one shared load or store a step |
| `RingStart.dfy` | starts behind the tail: exactly when nothing is lost |
| `RingBuffer.dfy` | the ring as an object, each method running alone |
| `RingRefinement.dfy` | an uninterrupted call of the protocol does what the object's method is proved to do |
| `Wakeup.dfy` | the eventcount handshake and the wakeup broadcast as a step relation |
| `WalRecord.dfy` | records, segment headers, recovery of a segment file |
| `SegmentLog.dfy` | what the two logs share: index of segments, accounting, retention, selection for a replay |
| `Wal.dfy` | the v0.1 log: append, rotation, retention, open, crash |
| `WalReplay.dfy` | the reader and replayer of the v0.1 log over the bytes of its files |
| `WalDurability.dfy` | appends, rotation, file creation, `fsync` and the two-phase flusher against crashes and the next `open`, as a step relation |
| `V2Segment.dfy` | a v2 segment under its lock-free writer and a reader, as a step relation over bytes |
| `WalV2.dfy` | the v2 log, and the two logs side by side |
| `V2Replay.dfy` | the reader and replayer of the v2 log over the bytes of its files, and the two logs compared there |
| `Publisher.dfy` | publish and batch publish over the ring and either log, the broadcast loop |
| `Subscriber.dfy` | start position, replay and reads of a subscriber |
| `Handoff.dfy` | a late subscriber's way from replay to the live ring, beside publishes in progress, as a step relation |
| `Frame.dfy`, `BridgeReader.dfy`, `DropQueue.dfy` | the bridge: frame codec, incremental reader, drop-oldest queue |

Objects whose methods update fields are classes; their methods are proved equal to functions on values, and the
theorems are about those functions. Concurrent parts are step relations `Enabled`/`Next`; `Reaches` says that a
sequence of steps leads from one state to another, and the theorems quantify over all such sequences.

Assumptions that the code makes without checking them: memory is sequentially consistent; the tail stays below
2^63; the ring theorems start from `RingBuffer::create` and one publisher. The checksum and the UTF-8 test are
arbitrary functions, so every result holds for CRC-32C (section 12.1 of RFC 3720) and for the validity test of
section 4 of RFC 3629.

## Where the code does not do what its documentation says

Each of these is a proved statement; the member is named.

- A pre-shared key of 65536 bytes or more is cut: the key length is written as a u16 (`Frame.HelloRoundTrip`).
- `decode` looks at a payload length only when all four bytes are there, so it can wait for the rest of a frame that is
  too large already (`Frame.CompletesIff`).
- `decode` documents `needed` as additional bytes, and returns the total (`Frame.NeededIsTight`).
- `StartPos::Explicit(c)` with `c` past the tail blocks an Error publisher for as long as every claimed cursor is past
  the tail, since the difference of tail and cursor wraps around (`RingBuffer.AheadBlocksForGood`); so does a lone
  start a full lap back, until its first read (`Subscriber.PlacedBlocksIff`).
- A ring whose tail was moved forward by `set_tail` hands out an empty message that nobody published to whoever reads
  position 0 before slot 0 is written (`RingBuffer.PhantomIff`). And whoever is placed behind the tail in a slot that
  was not written reads nothing, for ever, and fills an Error ring a lap past its cursor (`RingBuffer.StarvesIff`);
  after a restart over a log that is every start in the ring between position 0 and the tail
  (`Subscriber.RestartStarvesIff`), although the log may have the records.
- A start at a position inside the ring, explicit or by `HistoryBack`, can lose messages even under the Error policy:
  its cursor entry shows the tail until the handshake is over, and a publish in between may take the slot
  (`RingStart.HistoryStartLosesAMessage`). Nothing is lost in any continuation if and only if, when the cursor is
  stored, the position is within a lap and no publish that has passed its entry, or has decided, is about to take
  its slot (`RingStart.StartIsLosslessIff`).
- `try_receive_into_slice` skips a message as oversize before its second sequence check. Under DropOldest a message
  that fits can be skipped that way (`RingStart.ReportCanBeWrong`); the message is really too large if the slot has
  not moved on by then, which the Error policy guarantees to a promised reader (`RingProtocol.ReportIsExact`).
- A cursor entry that is claimed again before the publisher noticed that its last tenant left loses wakeups
  (`Wakeup.EarlyReuseLosesWakeup`); with that excluded none is lost (`Wakeup.NoLostWakeup`). In general a blocked
  subscriber without a token is left asleep by a publish if and only if its flag is down, or another client of its
  entry is visited before it (`Wakeup.PublishWakesIff`). Its flag can be down because an earlier broadcast spent it on
  a leftover (`Wakeup.FlagSpentEarlier`), but not without early reuse (`Wakeup.CarefulFlagIsUp`).
- A cursor claimed or moved back between the full check and the ring write leaves a record in the log that the ring
  rejected (`Publisher.OneKeeps` and `Publisher.BatchExact`, with the exact condition). The v0.1 log then refuses the
  next record while it fits the active segment, and otherwise starts a segment that repeats the cursor
  (`Publisher.AfterPhantom`); the v2 log takes it into the active segment as well (`Publisher.AfterPhantomV2`).
- A replay of a log that repeats a cursor can hand out a position twice, the first time with the rejected message
  (`Handoff.DuplicateRun`, `Handoff.TwiceIff`), or the rejected message instead of the published one
  (`Handoff.RefusedInsteadRun`). The handoff is in order exactly if no record that the replay handed out is followed
  by another one with its cursor, but for a last one replaced by the same message (`Handoff.NoGapNoDuplicate`). That
  needs a publish appended after a refused one (`Handoff.RepeatedIff`, `Handoff.SeamlessUnlessRepeated`).
- A replay that has handed out a record between its log append and its ring write, and is promoted then, ends one past
  the tail, and only then (`Handoff.PromotionOvertakesIff`); such a run exists (`Handoff.OvertakingRun`). With no other
  subscriber the ring refuses an appended record exactly in that case, or while the one subscriber is still connecting
  with a claim a lap behind (`Handoff.LoneRecheckRefusesIff`, `Handoff.StaleClaimRefuses`). In the first case
  everything published later is refused too, until another subscriber turns up (`Handoff.PromotedInsidePublish`).
- The v0.1 log takes no append any more after a record too large for a fresh segment met an empty active one, or once
  it was opened and closed without an append (`Wal.AppendNext`, `Wal.WedgedForGood`, `Wal.ReopenedIdleIsWedged`).
- The durable cursor of the v0.1 log can go back: the flusher stores the cursor it captured although an `fsync` stored
  a larger one meanwhile (`WalDurability.DurableFallsIff`, `WalDurability.DurableFallsBack`). What that `fsync` covered
  stays on stable storage (`WalDurability.FsyncHolds`).
- `Wal::open` publishes a durable cursor without syncing the recovered files (`WalDurability.OpenClaimsIff`).
- A crash after a segment file was created and before its header reached the disk makes the next `open` fail, and no
  other crash does (`WalDurability.CrashThenOpen`); every rotation passes through such a moment
  (`WalDurability.RotationIsExposed`).
- In the v2 log the retry for a full writer can never succeed (`WalV2.FallbackNeverHelps`); and a v2 segment accepts
  records behind its skip marker that no reader can see (`V2Segment.AppendBehindMarkerIsLost`), which the v2 log
  itself never does because a rotation gives the writer up first.
- `try_receive` swallows an error of the replay and goes on in the ring (`Subscriber.Subscriber.TryReceiveInto`).

## Model

| member | source | states |
|---|---|---|
| RingProtocol.NoTornRead | crates/mmbus/src/ring.rs:472-636 | over every interleaving, under either policy, a message handed out is byte for byte what was published at its position, and a subscriber's positions, those of oversize reports included, strictly increase |
| RingProtocol.ExactlyOnceFifo | crates/mmbus/src/subscriber.rs:222-270 | under Error backpressure a subscriber whose start was in time, as at its resynchronised tail it always is, or that is promoted from a parked cursor, gets that position, the next, and so on, each once, as its message or as a report of its length if it is too large for the caller's buffer, and is never more than a lap behind |
| RingProtocol.NeverTurnedAway | crates/mmbus/src/ring.rs:484-552 | such a subscriber, once past the tail check, meets neither a retry nor the defensive `None` |
| RingProtocol.ReportIsExact | crates/mmbus/src/ring.rs:601-616 | over every interleaving a message skipped as oversize has the length that was read and does not fit, if the slot has not moved on by then, as it never has for a promised reader under Error backpressure |
| RingStart.StartIsLosslessIff | crates/mmbus/src/subscriber.rs:222-270 | from every reachable ring under Error backpressure, a start at any position at or before the resynchronised tail gets that position and all after it in every continuation if and only if its cursor store is in time |
| RingStart.LateStartSkips | crates/mmbus/src/subscriber.rs:269-270 | from every state in which the store would be late there is a run whose first message is a later one |
| RingStart.NowIsInTime | crates/mmbus/src/subscriber.rs:222-225 | a start at the resynchronised tail is always in time |
| RingStart.HistoryStartLosesAMessage | crates/mmbus/src/subscriber.rs:225-270 | a run from the created ring in which the one message asked for is never received |
| RingStart.ReportCanBeWrong | crates/mmbus/src/ring.rs:601-616 | a run under DropOldest that skips an empty message as one of five bytes, too large for three |
| RingProtocol.CursorsBehindLog | crates/mmbus/src/ring.rs:547-551 | no cursor is past the tail, but by the one position whose sequence word is stored and whose tail store is still to come |
| RingProtocol.PromisedSlot | crates/mmbus/src/ring.rs:392-410 | no slot that a claimed cursor still needs is overwritten or being overwritten, although the cursor scan is not atomic |
| RingProtocol.FullExact | crates/mmbus/src/ring.rs:403-405 | with the minimum at or behind the tail the wrapping comparison says full exactly at a distance of a lap |
| RingProtocol.SlotZeroNeedsTailCheck | crates/mmbus/src/ring.rs:478-481 | the zeroed slot 0 would pass both sequence checks for position 0; only the tail check keeps a reader out |
| RingProtocol.CommitKeeps | crates/mmbus/src/ring.rs:452-457 | the second sequence store publishes the new position and leaves every copy in progress recognisable as old |
| RingProtocol.FetchPc | crates/mmbus/src/ring.rs:511-545 | a copied byte extends the published payload while the slot has not visibly moved on, and a copy that passes the second check is that payload |
| RingProtocol.StepKeeps | crates/mmbus/src/ring.rs:341-556 | every single access of publisher and subscribers keeps the invariant that slots mirror the log of published messages |
| RingBuffer.WindowPosIs | crates/mmbus/src/ring.rs:434 | among the positions of the last lap exactly one shares the slot of an old cursor, and it is the cursor itself if that is among them |
| RingBuffer.MinCursorIs | crates/mmbus/src/ring.rs:379-388 | the scan gives the smallest claimed cursor, and none exactly if all are unclaimed |
| RingBuffer.RingBuffer.MinActiveCursor | crates/mmbus/src/ring.rs:379-388 | the scan loop computes that minimum |
| RingBuffer.RingBuffer.IsFull | crates/mmbus/src/ring.rs:655-659 | the check on 64-bit wrap-around words |
| RingBuffer.RingBuffer.ClaimCursor | crates/mmbus/src/ring.rs:341-362 | the first free entry is taken and its stale wakeup flag cleared, and none exactly if all are claimed |
| RingBuffer.RingBuffer.constructor | crates/mmbus/src/ring.rs:126-188 | nothing is published, every slot is unwritten, every entry unclaimed, every flag down |
| RingBuffer.RingBuffer.WriteSlot | crates/mmbus/src/ring.rs:428-458 | the message becomes the newest of the last lap and no other message of the lap is lost |
| RingBuffer.RingBuffer.TryPublish | crates/mmbus/src/ring.rs:392-410 | a full ring rejects and is unchanged, otherwise exactly the message is appended |
| RingBuffer.RingBuffer.PublishDropOldest | crates/mmbus/src/ring.rs:416-421 | the message is always appended |
| RingBuffer.RingBuffer.SetTail | crates/mmbus/src/ring.rs:646-648 | the tail moves and every slot of the new lap is unwritten |
| RingBuffer.RingBuffer.TryReceive | crates/mmbus/src/ring.rs:472-556 | the read loop gives what the slot of the cursor holds by now, advances the entry in the ring past it, or leaves everything alone |
| RingBuffer.RingBuffer.TryReceiveIntoSlice | crates/mmbus/src/ring.rs:573-636 | the same into the caller's buffer: a payload that is too large is skipped and reported, a shorter one leaves the rest of the buffer alone |
| RingBuffer.SkipIsExact | crates/mmbus/src/ring.rs:472-556 | with the publisher idle a cursor behind the tail gets the unique position of its slot in the last lap, its own if not overwritten, with the payload published there |
| RingBuffer.PhantomIff | crates/mmbus/src/ring.rs:646-648 | after `set_tail` position 0 yields an unpublished empty message exactly as long as slot 0 is unwritten |
| RingBuffer.SaturatedIff | crates/mmbus/src/ring.rs:655-659 | the ring refuses exactly if some cursor is claimed and the smallest is a lap behind the tail or past it |
| RingBuffer.RefusesIff | crates/mmbus/src/ring.rs:392-410 | said of the entries: somebody is a lap behind the tail, or somebody is there and everybody is past it |
| RingBuffer.AheadBlocksForGood | crates/mmbus/src/subscriber.rs:226-229 | if every claimed cursor is past the tail no publish ever succeeds again |
| RingBuffer.StarvesIff | crates/mmbus/src/ring.rs:472-510 | a claimed cursor at or behind the tail reads nothing in any continuation of publishes, whatever the other cursors do, if and only if it is behind the tail and its slot is unwritten; the ring is then full a lap past it |
| RingRefinement.PublishAlone | crates/mmbus/src/ring.rs:392-458 | the accesses of a publish, taken one after the other without interruption, have the effect of the object's publish under either policy |
| RingRefinement.ReceiveAlone | crates/mmbus/src/ring.rs:472-556 | the accesses of a read, without interruption, hand out and advance exactly as the object's read |
| RingRefinement.SameMin | crates/mmbus/src/ring.rs:379-388 | the scan access by access gives the minimum of the cursor table |
| RingRefinement.SlotHoldsWindow | crates/mmbus/src/ring.rs:428-458 | with the publisher idle the slot of an old cursor holds the one position of its slot in the last lap |
| Wakeup.NoLostWakeup | crates/mmbus/src/publisher.rs:352-410 | over every interleaving in which no entry is reused early, a subscriber blocked without a token on an unread message still has its flag up and is yet to be visited by the broadcast; none sleeps on unread data while the publisher is idle |
| Wakeup.EarlyReuseLosesWakeup | crates/mmbus/src/publisher.rs:364-395 | a run with early reuse of an entry that leaves a subscriber asleep on an unread message |
| Wakeup.WokenIff | crates/mmbus/src/publisher.rs:352-410 | of an uninterrupted broadcast a live client with its flag up gets its wakeup if and only if no other client of its entry is visited before it, in the order that `swap_remove` makes |
| Wakeup.PublishWakesIff | crates/mmbus/src/publisher.rs:223-266 | from any state of any run, reuse of entries included, with the publisher idle, a blocked subscriber without a token is left asleep by the next publish exactly if its flag is down or another client of its entry is visited before it, and has a token otherwise |
| Wakeup.FlagSpentEarlier | crates/mmbus/src/publisher.rs:364-395 | a run in which an earlier broadcast spent the flag on a leftover, so that the next one leaves the subscriber asleep although it visits it first |
| Wakeup.CarefulFlagIsUp | crates/mmbus/src/subscriber.rs:464-506 | without early reuse a blocked subscriber without a token finds its flag up whenever the publisher is idle |
| Wakeup.CarefulIsNeverStolen | crates/mmbus/src/publisher.rs:364-395 | without early reuse of entries that never happens |
| Wakeup.RestOfBroadcast | crates/mmbus/src/publisher.rs:352-410 | a blocked subscriber whose flag is down is passed over by the rest of a broadcast |
| Wakeup.StepKeeps | crates/mmbus/src/subscriber.rs:464-506 | arming, re-check, token, timeout, and each access of the broadcast keep the handshake's invariant |
| Wakeup.ReadingIsNotWoken | crates/mmbus/src/publisher.rs:364-395 | in every run, early reuse included, a subscriber that is reading has its flag down, and the broadcast passes it over without a wakeup |
| Wakeup.SleepEnds | crates/mmbus/src/subscriber.rs:464-495 | a sleep ends by a wakeup, which it uses up, by its timeout, or with the process; only the publisher adds a wakeup, one at a time |
| WalRecord.HeaderRoundTrip | crates/mmbus/src/wal/record.rs:88-141 | a written segment header is accepted, whatever follows it |
| WalRecord.HeaderAcceptedIff | crates/mmbus/src/wal/record.rs:122-141 | any bytes are accepted as a header with these fields exactly if they are that header, the reserved bytes aside |
| WalRecord.HeaderLayout | crates/mmbus/src/wal/record.rs:88-101 | magic, version, reserved zeros, first cursor and creation time in their places |
| WalRecord.RecordLayout | crates/mmbus/src/wal/record.rs:63-83 | length, cursor, timestamp, payload length and payload in their places, and a checksum of everything between the length and itself |
| WalRecord.ReadEncoded | crates/mmbus/src/wal/record.rs:63-83 | an encoded record is read back, whatever follows it |
| WalRecord.AcceptedIsEncoding | crates/mmbus/src/wal/segment_reader.rs:170-241 | bytes that are accepted are exactly the encoding of the record returned |
| WalRecord.CutIsShort | crates/mmbus/src/wal/segment_reader.rs:170-209 | a record cut anywhere reads as a short record |
| WalRecord.ScanIsLongest | crates/mmbus/src/wal/segment_reader.rs:264-295 | what the recovery scan accepts is the longest prefix that is a concatenation of encodings |
| WalRecord.ScanOfCut | crates/mmbus/src/wal/segment_reader.rs:264-295 | of records cut at a byte exactly those that end before it are read |
| WalRecord.FindGoodEnd | crates/mmbus/src/wal/segment_reader.rs:264-295 | the scan loop finds the end of the good records, the last cursor, and whether a bad record follows |
| WalRecord.RecoverTruncate | crates/mmbus/src/wal/segment_reader.rs:264-321 | the file is cut at the first bad record and nowhere else; without a valid header it is left alone; the report is true |
| WalRecord.RecoveryIsClean | crates/mmbus/src/wal/segment_reader.rs:258-263 | a recovered file reads without error, holds the same records, and recovering it again changes nothing |
| WalRecord.CrashAtAnyByte | crates/mmbus/src/wal/segment_reader.rs:264-321 | a segment cut at any byte past its header keeps exactly the records written completely before the cut |
| SegmentLog.RotateKeeps | crates/mmbus/src/wal/wal.rs:435-449 | a rotation to the next cursor succeeds exactly if the active segment holds a record, and keeps chain and accounting |
| SegmentLog.WrittenKeeps | crates/mmbus/src/wal/wal.rs:301-310 | writing the next record appends it to the log and keeps chain and accounting |
| SegmentLog.DeleteKeeps | crates/mmbus/src/wal/wal.rs:462-470 | retention takes the oldest segment, never the active one, and subtracts exactly its size |
| SegmentLog.EnforceKeeps | crates/mmbus/src/wal/wal.rs:451-475 | retention ends, leaves a suffix of the segments, and exceeds the cap only with nothing but the active segment |
| SegmentLog.EnforceIsMinimal | crates/mmbus/src/wal/wal.rs:451-475 | with one deleted segment less the log would be over its cap |
| SegmentLog.EnforceTrims | crates/mmbus/src/wal/wal.rs:451-475 | retention leaves the newest segments: under the cap or only the active one, and over it with one more |
| SegmentLog.InsertSorts | crates/mmbus/src/wal/wal.rs:435-449 | a new segment comes into the index between the smaller and the larger names |
| SegmentLog.SkipIsSafe | crates/mmbus/src/wal/wal.rs:399-412 | skipping to the containing segment loses nothing at or past the asked cursor |
| SegmentLog.ReplayExact | crates/mmbus/src/wal/reader.rs:65-88 | `read_from` refuses exactly a cursor below the oldest segment of a non-empty log, and otherwise yields what scanning everything would |
| Wal.Wal.Append | crates/mmbus/src/wal/wal.rs:270-331 | one append as a function of the log before it, in every branch |
| Wal.Wal.CreateSegment | crates/mmbus/src/wal/segment_writer.rs:56-75 | a segment is created and made active exactly if its file does not exist |
| Wal.Wal.RotateLocked | crates/mmbus/src/wal/wal.rs:435-449 | close, record the size, create; on a name clash the old writer is gone already |
| Wal.Wal.EnforceRetentionLocked | crates/mmbus/src/wal/wal.rs:451-475 | the retention loop computes the specification and ends |
| Wal.AppendNext | crates/mmbus/src/wal/wal.rs:270-331 | an append of the next record succeeds exactly if the log has a writer or no file and the record fits a fresh segment or the active one is not empty; a refusal wedges the log and loses nothing |
| Wal.AppendExact | crates/mmbus/src/wal/wal.rs:270-331 | the segments after a successful append, exactly: the record in the last segment if there is one that it fits and in a new one of its name otherwise, and then as few of the oldest gone as the cap demands |
| Wal.RefusedIff | crates/mmbus/src/wal/wal.rs:270-299 | for any cursor: a payload is refused as too large exactly if it exceeds the maximum, a cursor as regressed exactly if it is not the next one and the record fits the active segment, and neither changes anything |
| Wal.AppendBounded | crates/mmbus/src/wal/wal.rs:290-299 | records that fit a fresh segment keep every segment within its size limit |
| Wal.LogShape | crates/mmbus/src/wal/wal.rs:270-331 | any run of appends keeps a contiguous suffix of the history, bounded segments and exact accounting, over the cap only with the active segment alone |
| Wal.ReplayAfterRun | crates/mmbus/src/wal/wal.rs:387-413 | after such a run a reader gets everything from the asked cursor on, or a refusal naming the oldest cursor |
| Wal.OpenKeeps | crates/mmbus/src/wal/wal.rs:123-203 | opening keeps all records, continues after the last, and has a writer exactly if the last segment holds a record |
| Wal.ReopenedIdleIsWedged | crates/mmbus/src/wal/wal.rs:169-181 | opening twice without an append between leaves a log that cannot be appended to |
| Wal.WedgedForGood | crates/mmbus/src/wal/segment_writer.rs:56-57 | such a log refuses every append of the next cursor and does not change |
| Wal.FoundAgain | crates/mmbus/src/wal/wal.rs:143-147 | recovery finds in a cut file the segment with the records before the cut |
| Wal.ResumeAfterCrash | crates/mmbus/src/wal/wal.rs:123-189 | after a crash at any byte of the last segment the log continues one past the last whole record, and takes the next record exactly if one survived in that segment |
| WalReplay.SegmentReader.NextRecord | crates/mmbus/src/wal/segment_reader.rs:112-127 | the next item of the file; nothing comes after an error |
| WalReplay.Replayer.Next | crates/mmbus/src/wal/wal.rs:510-543 | the head of what is still to come over all files, records below the floor left out, a bad file reported once |
| WalReplay.ReaderScans | crates/mmbus/src/wal/segment_reader.rs:112-127 | a reader hands out the records of the recovery scan and then the failure that stopped it |
| WalReplay.ReplayOfFiles | crates/mmbus/src/wal/wal.rs:387-413 | over flushed files, bytes to records, a replay yields exactly the records at or past the asked cursor, without error |
| WalReplay.FileAmongFiles | crates/mmbus/src/wal/wal.rs:510-543 | whatever bytes the files hold, each adds to the replay the records of its own good beginning at or past the asked cursor and then its own failure, and the files behind it are read all the same |
| WalDurability.DurableSurvives | crates/mmbus/src/wal/wal.rs:556-597 | in every interleaving of append, rotation, `fsync` and flusher, recovery after a crash that keeps the synced bytes and anything after them finds every retained record below the durable cursor in its place |
| WalDurability.FsyncHolds | crates/mmbus/src/wal/wal.rs:336-344 | what an `fsync` synced survives every later crash while it is retained, whatever the flusher stores afterwards |
| WalDurability.FsyncPublishes | crates/mmbus/src/wal/wal.rs:317-344 | whatever the flusher and the kernel do between the two halves of an `fsync`, inline or forced, the durable cursor it stores is the pending cursor it started with, which is still the pending one |
| WalDurability.FlusherPublishes | crates/mmbus/src/wal/wal.rs:556-597 | whatever is appended, rotated, synced or pruned during a round of the flusher, the durable cursor it stores is the pending cursor of its first phase |
| WalDurability.FsyncCatchesUp | crates/mmbus/src/wal/wal.rs:336-344 | from any state with a writer and the lock free an undisturbed `fsync` ends with everything durable |
| WalDurability.RoundCatchesUp | crates/mmbus/src/wal/wal.rs:571-596 | and so does an undisturbed round of the flusher |
| WalDurability.DurableFallsIff | crates/mmbus/src/wal/wal.rs:595 | over every run, the durable cursor goes back exactly if the flusher stores what it captured before a larger one was stored |
| WalDurability.DurableFallsBack | crates/mmbus/src/wal/wal.rs:595 | a run from an empty log in which it goes from 2 to 1 |
| WalDurability.SafeForGood | crates/mmbus/src/wal/segment_writer.rs:109-131 | a cursor whose records are in synced bytes stays covered by every step |
| WalDurability.RestartKeepsDurable | crates/mmbus/src/wal/wal.rs:123-189 | after a crash that cuts every file at or past its synced bytes, recovery and open give a contiguous prefix of the log that continues at or after the durable cursor |
| WalDurability.CaptureClaims | crates/mmbus/src/wal/segment_writer.rs:127-131 | after the flusher's first phase all that was appended is flushed in the active file and synced in the older ones |
| WalDurability.StepKeeps | crates/mmbus/src/wal/wal.rs:549-599 | each step of log and flusher keeps the durability invariant |
| WalDurability.StepContents | crates/mmbus/src/wal/wal.rs:270-331 | an append adds its record at the end, a created file is the last, retention takes the oldest, and no other step changes what is in the log |
| WalDurability.StepBytes | crates/mmbus/src/wal/segment_writer.rs:109-150 | a file is flushed and synced exactly as far as buffer and kernel got, and all the way by closing it or by `fsync` |
| WalDurability.OpenFailsIff | crates/mmbus/src/wal/wal.rs:143-147 | `open` fails exactly if some segment file has no whole valid header |
| WalDurability.CrashThenOpen | crates/mmbus/src/wal/wal.rs:123-189 | over every run and every crash image, a file in creation included, `open` fails exactly if that file is there without its whole header, and otherwise gives a contiguous log with all below the durable cursor |
| WalDurability.RotationIsExposed | crates/mmbus/src/wal/segment_writer.rs:56-66 | every rotation reaches a state from which a crash makes `open` fail |
| WalDurability.OpenClaimsIff | crates/mmbus/src/wal/wal.rs:188 | after the death of a process the durable cursor that `open` publishes is true of every file exactly if the flushed bytes of the last one were written back or the last of them were torn |
| V2Segment.DecodeEncoded | crates/mmbus/src/wal/v2/mmap_segment_reader.rs:213-250 | a padded v2 record, undamaged, is decoded to the record that was appended |
| V2Segment.ReturnedIff | crates/mmbus/src/wal/v2/mmap_segment_reader.rs:213-250 | whatever the bytes, a record is returned exactly if they are its body, any padding, and the checksum of both; anything else is reported as corrupt, a checksum that does not match included |
| V2Segment.WriterKeeps | crates/mmbus/src/wal/v2/mmap_segment_writer.rs:156-289 | reserve, mark, body, checksum, commit and skip marker keep the layout of the mapping |
| V2Segment.EndLength | crates/mmbus/src/wal/v2/mmap_segment_reader.rs:180-200 | at the end of the committed records the length field is zero, marked as being written, or the skip marker |
| V2Segment.ReturnsPrefix | crates/mmbus/src/wal/v2/mmap_segment_reader.rs:163-251 | in every interleaving a reader has returned a prefix of the committed appends, whole and once, and never an error |
| V2Segment.IdleWriter | crates/mmbus/src/wal/v2/mmap_segment_reader.rs:163-251 | with the writer idle a call returns the next committed record, and `AwaitMore` or `EndOfSegment` exactly if all were returned, with or without a marker |
| V2Segment.EndIsFinal | crates/mmbus/src/wal/v2/mmap_segment_reader.rs:164-191 | after `EndOfSegment` no step of anybody makes another record visible |
| V2Segment.AppendBehindMarkerIsLost | crates/mmbus/src/wal/v2/mmap_segment_writer.rs:258-289 | a record appended behind a skip marker is never returned |
| V2Segment.AppendsReach | crates/mmbus/src/wal/v2/mmap_segment_writer.rs:156-241 | records that fit behind the visible ones can all be appended by an undisturbed writer and become visible in order |
| WalV2.MmapSegmentWriter.Reserve | crates/mmbus/src/wal/v2/mmap_segment_writer.rs:175-186 | space is reserved exactly if the record fits, and otherwise the tail stays |
| WalV2.Aggregator.Append | crates/mmbus/src/wal/v2/wal.rs:334-439 | one append as a function of the log and the writer's tail, in every branch including the fallback |
| WalV2.Aggregator.CreateSegment | crates/mmbus/src/wal/v2/mmap_segment_writer.rs:107-149 | a segment is created exactly if the size limit holds a record and its file does not exist |
| WalV2.Aggregator.RotateLocked | crates/mmbus/src/wal/v2/wal.rs:529-576 | the writer is given up first, the old segment marked, and retired only if the new one could be created |
| WalV2.Aggregator.EnforceRetentionLocked | crates/mmbus/src/wal/v2/wal.rs:578-613 | the retention loop computes the specification that both logs share |
| WalV2.RotatedKeeps | crates/mmbus/src/wal/v2/rotation.rs:55-79 | a rotation to the next cursor succeeds exactly if the active segment holds a record |
| WalV2.FallbackNeverHelps | crates/mmbus/src/wal/v2/wal.rs:388-407 | the retry for a full writer is reached only by a record too large for a fresh segment and always fails on the name of the active one |
| WalV2.AppendNext | crates/mmbus/src/wal/v2/wal.rs:334-439 | an append of the next record succeeds exactly if the log is not wedged and the record fits a fresh segment, and the cached byte count is the writer's tail again |
| WalV2.AppendExact | crates/mmbus/src/wal/v2/wal.rs:334-439 | the segments after a successful append, exactly, as for the other log |
| WalV2.TooLargeIff | crates/mmbus/src/wal/v2/wal.rs:334-345 | a payload above the maximum is refused before anything changes, and with the next cursor nothing else is refused as too large |
| WalV2.PruneNeverUnderflows | crates/mmbus/src/wal/v2/wal.rs:596-601 | the subtraction of a pruned size never goes below zero |
| WalV2.LogShape | crates/mmbus/src/wal/v2/wal.rs:334-439 | any run of appends keeps a contiguous suffix of the history and the byte count equal to the tail |
| WalV2.ReplayAfterRun | crates/mmbus/src/wal/v2/wal.rs:483-507 | after such a run a reader gets everything from the asked cursor on, or a refusal naming the oldest cursor |
| WalV2.SameLog | crates/mmbus/src/wal/v2/reader.rs:60-83 | fed the same records the v0.1 and the v2 log answer every reader alike for each cursor both still have, and for every cursor while neither has deleted a record |
| Wal.NothingDeletedIff | crates/mmbus/src/wal/wal.rs:451-475 | a log has all records of its history exactly if its oldest segment still has the first cursor |
| V2Replay.MmapSegmentReader.NextRecord | crates/mmbus/src/wal/v2/mmap_segment_reader.rs:163-251 | over any bytes, the next item of the file, or none now, or none any more; an error is passed over (which items a file has, damaged ones included, say `V2Replay.GivesIff` and `V2Replay.DamagedItems`) |
| V2Replay.OpensIff | crates/mmbus/src/wal/v2/mmap_segment_reader.rs:107-142 | `open` accepts exactly the files that begin with the magic and version 2, and names a v0.1 file as such |
| V2Replay.GivesIff | crates/mmbus/src/wal/v2/mmap_segment_reader.rs:163-251 | over any bytes, a call returns a record exactly if there is one before the tail, whole, within the size limits and under its own checksum; for any other length that is set and not marked it reports a failure at that place and moves on; it is at the end exactly at a skip marker |
| V2Replay.WalReplayer.Next | crates/mmbus/src/wal/v2/wal.rs:652-682 | the head of what is still to come over all files, records below the floor left out, a file that cannot be opened reported once |
| V2Replay.CallAlone | crates/mmbus/src/wal/v2/mmap_segment_reader.rs:163-251 | on any mapping, an uninterrupted call of the step relation ends as the call on the bytes of its file |
| V2Replay.ImageItems | crates/mmbus/src/wal/v2/mmap_segment_reader.rs:107-251 | draining the file that any run of the writer leaves gives the committed records, each once, and no error |
| V2Replay.DamagedItems | crates/mmbus/src/wal/v2/mmap_segment_reader.rs:213-250 | a file of the writer in which some records no longer match their checksum drains to one item a record, in order: a failure with its kind and place for each of those, and every other record as appended |
| V2Replay.ChangedIsDamaged | crates/mmbus/src/wal/v2/mmap_segment_reader.rs:232-242 | a record whose covered bytes were changed to some with another checksum is such a record |
| V2Replay.ReplayOfMappings | crates/mmbus/src/wal/v2/wal.rs:483-507 | over the files of the log, bytes to records, a replay yields exactly the records at or past the asked cursor, without error |
| V2Replay.DamagedReplay | crates/mmbus/src/wal/v2/wal.rs:652-682 | over the files of a log so damaged, a replay hands out exactly the records at or past the asked cursor that still match their checksum, in order |
| V2Replay.RunIsOnDisk | crates/mmbus/src/wal/v2/mmap_segment_writer.rs:156-241 | after any run of appends each segment of the v2 log has a file of the configured size that the writer can have left |
| V2Replay.SameLogOnDisk | crates/mmbus/src/wal/v2/reader.rs:60-83 | after the same appends the replayers over the v0.1 files and over the v2 files give the same items for each cursor both logs still have: the records appended from there on |
| Publisher.NoLogOne | crates/mmbus/src/publisher.rs:223-266 | without a log a message is accepted exactly if it fits a slot and, under the Error policy, nobody is a lap behind and not everybody is past the tail; then it is what the ring gains, and otherwise the ring gains nothing |
| Publisher.NoLogBatch | crates/mmbus/src/publisher.rs:286-348 | without a log the ring gains exactly the first `count` messages of a batch, each of which it takes, and the next one it does not take: the batch fails if that is too large and ends otherwise |
| Publisher.OneKeeps | crates/mmbus/src/publisher.rs:223-266 | over either log a publish is refused exactly if the message is too large or one of the two scans finds the ring full; it adds its message to the ring, and a record of its position, timestamp and payload to the log, or nothing to either, except exactly when the second scan finds the ring full and the first did not: then the log is one ahead |
| Publisher.CalmDoesNotFlip | crates/mmbus/src/publisher.rs:242-257 | it does not happen if between the two scans no cursor is claimed, moved back or moved past the tail |
| Publisher.BatchExact | crates/mmbus/src/publisher.rs:286-348 | whatever the cursors do between the scans, a batch adds exactly its first `count` messages to ring and log, the log being one ahead exactly if the message after them flipped the ring full between its scans; it stops early only at a full ring and fails only at a message too large |
| Publisher.BatchLogs | crates/mmbus/src/publisher.rs:286-348 | and what the log of a batch holds is the end of what it held followed by the positions, timestamps and payloads of those messages |
| Publisher.BatchKeeps | crates/mmbus/src/publisher.rs:286-348 | so a batch during which no cursor is claimed, moved back or moved past the tail ends in lockstep |
| Publisher.LockstepIsEquality | crates/mmbus/src/publisher.rs:149-164 | lockstep means that the log holds every position from its oldest to the tail, with the payloads of the ring |
| Publisher.CreateAligns | crates/mmbus/src/publisher.rs:149-164 | a publisher created over a log starts in lockstep exactly if the log can be appended to |
| Publisher.AfterPhantom | crates/mmbus/src/wal/segment_writer.rs:92-97 | with the v0.1 log one ahead the next publish is refused while it fits the active segment, and otherwise writes a second record with the same cursor or collides |
| Publisher.AfterPhantomV2 | crates/mmbus/src/wal/v2/wal.rs:334-439 | with the v2 log one ahead the next publish is taken: into the active segment, which then ends in two records with one cursor, or into a new one, unless the active one has its name |
| Publisher.Publisher.constructor | crates/mmbus/src/publisher.rs:155-161 | the tail of a fresh ring becomes the next cursor of the log |
| Publisher.Publisher.PublishItem | crates/mmbus/src/publisher.rs:223-261 | with or without a log, the state and answer that `Publisher.NoLogOne` and `Publisher.OneKeeps` describe: size check, full check, log append, ring write |
| Publisher.Publisher.Publish | crates/mmbus/src/publisher.rs:223-266 | the same; the pending connections are let in unless the message is too large, and an accepted message is followed by exactly one broadcast that reaches them too |
| Publisher.Publisher.PublishMany | crates/mmbus/src/publisher.rs:286-348 | the batch that `Publisher.NoLogBatch`, `Publisher.BatchExact` and `Publisher.BatchLogs` describe; the pending connections are let in, and one broadcast follows exactly if something was published |
| Publisher.Publisher.BroadcastWakeup | crates/mmbus/src/publisher.rs:352-410 | the loop computes the specification of a broadcast |
| Publisher.BroadcastExaminesAll | crates/mmbus/src/publisher.rs:352-410 | every client is examined once in spite of `swap_remove`: exactly the live flagged ones are woken and lose their flag, exactly the released and unreachable ones are dropped |
| Subscriber.PlacedEntry | crates/mmbus/src/subscriber.rs:222-270 | the entry is past the tail only for an explicit start past it, more than a lap behind only for that much history, and parked at the tail exactly for a replay |
| Subscriber.PlacedExactly | crates/mmbus/src/subscriber.rs:222-270 | start by start: the cursor is the tail, that many messages before it but not below 0, or the explicit one; a cursor that the ring no longer reaches is replayed from the last segment named at or below it with the entry at the tail, or refused with the oldest cursor exactly if there is none; every other entry is the cursor |
| Subscriber.HistoryDrains | crates/mmbus/src/subscriber.rs:222-225 | with the publisher idle and a tail never set, a history of up to a lap drains to exactly that many newest messages, or to all there are |
| Subscriber.ExplicitDrains | crates/mmbus/src/subscriber.rs:226-229 | an explicit cursor inside the ring drains to everything published from there on; `Now`, and a cursor past the tail, to nothing |
| Subscriber.PlacedBlocksIff | crates/mmbus/src/subscriber.rs:222-270 | a lone subscriber's placement turns an Error publisher away at once exactly if it is past the tail or a full lap back; `Now` never does |
| Subscriber.RestartStarvesIff | crates/mmbus/src/subscriber.rs:225-229 | over an empty ring whose tail was moved to the end of a log, a subscriber placed in the ring starves exactly between position 0 and the tail |
| Subscriber.Subscriber.NextWalRecord | crates/mmbus/src/subscriber.rs:523-545 | a replayed record moves the cursor past it, an error ends the replay, the end of the replay brings the ring entry up to the cursor |
| Subscriber.Subscriber.TryReceiveInto | crates/mmbus/src/subscriber.rs:379-391 | the replay comes first, then the ring from the cursor reached; a replay error is swallowed |
| Subscriber.Subscriber.ArmWakeup | crates/mmbus/src/subscriber.rs:497-506 | the flag is left set exactly if there is nothing to read |
| Handoff.NoGapNoDuplicate | crates/mmbus/src/subscriber.rs:226-270 | over every run of either log, publishes in progress and other subscribers included, a subscriber started behind the ring leaves out no position between the asked one and its cursor, and hands out each once, in order and with its message, if and only if no record its replay handed out is followed by another with its cursor (but for the last one if the same message took its place); a live one is never a lap behind, and past the tail exactly from a promotion that overtook a ring write until that write lands |
| Handoff.TwiceIff | crates/mmbus/src/wal/v2/wal.rs:652-682 | a position is handed out twice exactly if the replay read two records with one cursor |
| Handoff.RepeatedIff | crates/mmbus/src/publisher.rs:233-261 | over every run, the log comes to repeat a cursor exactly if a publish was appended while the log was one ahead |
| Handoff.RefusalGoesAhead | crates/mmbus/src/publisher.rs:252-261 | the log gets one ahead of an idle publisher exactly by a second scan that refuses an appended record |
| Handoff.SeamlessUnlessRepeated | crates/mmbus/src/subscriber.rs:226-270 | so without a publish appended after a refused one the handoff is without gap or duplicate, through replay and live ring |
| Handoff.DuplicateRun | crates/mmbus/src/wal/v2/mmap_segment_writer.rs:151-155 | a run of either log from the empty bus in which a subscriber hands out one position twice, first with the message the ring rejected |
| Handoff.RefusedInsteadRun | crates/mmbus/src/subscriber.rs:523-545 | a run of either log in which the rejected message is handed out and the one published at its position never is |
| Handoff.LiveReceivesNext | crates/mmbus/src/subscriber.rs:312-328 | once live and behind the tail it receives the position of its cursor |
| Handoff.DrainedPhase | crates/mmbus/src/subscriber.rs:536-543 | a drained replay stands between the tail its entry was parked at and the current tail |
| Handoff.RecordIs | crates/mmbus/src/wal/wal.rs:510-543 | the record a replay looks at is skipped, or the asked one if it is the first, or else has the position just handed out or the next |
| Handoff.ListIs | crates/mmbus/src/wal/reader.rs:65-88 | the listed segments start at the one holding the asked cursor and cover the tail loaded before |
| Handoff.StepWorld | crates/mmbus/src/publisher.rs:223-266 | an append adds a record at the tail, only the end of a publish moves the tail, retention takes the oldest segment and leaves the others, and nothing the subscriber does changes log or ring |
| Handoff.PromotionOvertakesIff | crates/mmbus/src/subscriber.rs:536-543 | a promotion puts the entry one past the tail exactly if a record is in the log and not in the ring and the replay has handed it out; otherwise between the parked and the current tail |
| Handoff.RecheckRefusesIff | crates/mmbus/src/ring.rs:392-410 | the second scan refuses exactly if the smallest cursor is a lap behind the tail or past it |
| Handoff.LoneRecheckRefusesIff | crates/mmbus/src/publisher.rs:255-266 | with no other subscriber, an appended record is refused by the ring exactly if the one subscriber's entry is past the tail, which is a promotion that overtook it, or a lap behind, which is a stale claim still connecting |
| Handoff.StaleClaimRefuses | crates/mmbus/src/subscriber.rs:118-120 | a run from the empty bus to the second case |
| Handoff.OvertakingRun | crates/mmbus/src/publisher.rs:233-261 | a run from the empty bus to a lone subscriber promoted past the tail between an append and its second scan |
| Handoff.PromotedInsidePublish | crates/mmbus/src/subscriber.rs:536-543 | from there, over every continuation without another subscriber, the record and everything later is refused: neither ring nor log grows again |
| Frame.DecodeEncode | crates/mmbus-bridge/src/frame.rs:149-158 | decoding an encoding gives the frame back exactly if the frame is within the size cap |
| Frame.EncodeDecode | crates/mmbus-bridge/src/frame.rs:224-280 | accepted bytes are exactly the encoding of the accepted frame |
| Frame.DecisionIsStable | crates/mmbus-bridge/src/frame.rs:224-280 | a frame or a hard error does not change when more bytes arrive |
| Frame.NeededIsTight | crates/mmbus-bridge/src/frame.rs:189-198 | `needed` exceeds what is there and never the length of a buffer that decides |
| Frame.UnknownIsFinal | crates/mmbus-bridge/src/frame.rs:224-240 | with the whole header there, a wrong version and an unknown type are hard errors that name it, whatever follows |
| Frame.CompletesIff | crates/mmbus-bridge/src/frame.rs:224-280 | behind a whole header some continuation is a frame exactly if nothing is wrong so far and the least frame that begins like this is within the cap |
| Frame.HelloRoundTrip | crates/mmbus-bridge/src/frame.rs:112-187 | a hello parses back exactly if its key is shorter than 65536 bytes |
| Frame.HelloLayout | crates/mmbus-bridge/src/frame.rs:112-126 | origin, key length as a u16, key |
| BridgeReader.DecodeAllEncodeAll | crates/mmbus-bridge/src/frame.rs:149-280 | any list of frames within the cap decodes back in order, followed by what comes after |
| BridgeReader.EncodeAllDecodeAll | crates/mmbus-bridge/src/frame.rs:224-280 | the decoded frames are exactly the bytes before the undecodable rest |
| BridgeReader.DecodeAllExtends | crates/mmbus-bridge/src/frame.rs:224-280 | later bytes extend the decoding, and change nothing after a hard error |
| BridgeReader.HandleFrame | crates/mmbus-bridge/src/bridge.rs:779-819 | one publication, topic first and payload second, exactly for a message of another origin on a valid topic in the receive set, and none for any other frame |
| BridgeReader.ForwardedCorresponds | crates/mmbus-bridge/src/bridge.rs:779-819 | the publications of a list of frames are in order-preserving one-to-one correspondence with exactly those messages of it |
| BridgeReader.SessionPublishes | crates/mmbus-bridge/src/bridge.rs:717-769 | nothing is published unless the first frame is a hello with an accepted key, and then that correspondence holds for the frames behind it |
| BridgeReader.StreamIs | crates/mmbus-bridge/src/bridge.rs:711-731 | the stream is what was read before the shutdown, a failed read or the peer closing; a timeout adds nothing |
| BridgeReader.ReaderMain | crates/mmbus-bridge/src/bridge.rs:699-777 | however the stream is split into reads, what is published corresponds one to one and in order to the messages of others on topics of ours behind an accepted hello, up to the first error of the whole stream, and is nothing without one |
| BridgeReader.SentIsPublished | crates/mmbus-bridge/src/bridge.rs:707-776 | what a peer with an accepted key sends is published, message by message and in order, whatever is left incomplete at the end |
| DropQueue.RunConserves | crates/mmbus-bridge/src/queue.rs:49-105 | over every interleaving the queue is within its capacity, received items followed by the queue are an in-order selection of the accepted ones, and accepted = received + reported drops + queued |
| DropQueue.QueuedIsNewest | crates/mmbus-bridge/src/queue.rs:49-65 | what is queued is the newest part of what was accepted |
| DropQueue.StepExact | crates/mmbus-bridge/src/queue.rs:49-65 | a send evicts the oldest item exactly if the queue is open and full, and is without effect exactly if it is closed; the receiver takes the oldest |
| DropQueue.RunAccepts | crates/mmbus-bridge/src/queue.rs:49-105 | over every interleaving what is accepted is what was offered before the close, and a queue never offered more than its capacity loses nothing |
| DropQueue.Channel.Send | crates/mmbus-bridge/src/queue.rs:49-65 | one send, with the evictions it reports |
| DropQueue.Channel.RecvTimeout | crates/mmbus-bridge/src/queue.rs:80-105 | the oldest item, or nothing only from an empty queue that is closed or after the last wait |

## Left out

- Weak memory orderings and raw pointers: a step relation over single accesses stands for the mapping.
- Publisher restart over a ring that is reused (generations): cursors and slots of the last generation are kept on purpose, so the ring theorems hold within one.
- Counters, statistics, timestamps and clocks: timestamps are inputs.
- Sockets, eventfd, named pipes, file locks and threads: a wakeup is a token, a connection a step, a file a sequence of bytes with a synced length.
- Input and output errors other than an existing segment file, and the `Poisoned` state of a log after one.
- The v2 durable cursor: sealing a segment starts its write-back without waiting for it, and the flusher syncs the current writer only, so the cursor does not cover sealed segments.
- Reopening a v2 log: it counts the preallocated length of old files towards retention.
- Wakeups for a client accepted only after the tail store of a message.
- Closing of the queue by reference counts: closing is one operation here.
- Loop freedom across several bridges: forwarded frames carry the bridge's own origin, so only the filter of one connection is claimed.
- Python bindings, asyncio wrappers, multicast, metrics, configuration and command line.
- RingBuffer.RingBuffer.TryReceive: runs alone, so its loop leaves out the retries that only a concurrent write can cause; module RingProtocol has them.
- V2Segment.ReturnsPrefix: one reader, which looks at each byte of a record once; readers share nothing they write, and committed bytes do not change.
- WalReplay.ReplayOfFiles: everything appended has reached the files; what a buffered writer holds back is the subject of module WalDurability.
- Handoff.NoGapNoDuplicate: appended records can be read at once and listed segments are kept; whether a record rotates the log is left open, and that a log which failed to rotate takes nothing more is not modelled.
- Publisher.AfterPhantomV2: for a record that fits a fresh segment and an active segment with a record; the others are refused as `WalV2.AppendNext` says.
- V2Replay.ImageItems: the writer is between two calls; what a reader sees beside a writer at work is the subject of module V2Segment.
- V2Replay.MmapSegmentReader.NextRecord: a length field across the end of the file is read as if zeros followed, as they do in the last page of a mapping.
- RingProtocol.ReportIsExact: leaves out the bytes of a torn copy that a retry leaves behind in the caller's buffer; a later success overwrites all that it returns.
- RingBuffer.RingBuffer.TryReceiveIntoSlice: runs alone; the report made before the second sequence check is in module RingProtocol.
- Publisher.Publisher.constructor: the object is over the v0.1 log; the functions it is proved equal to, and lockstep, are over either.
- Publisher.CreateAligns: over a v0.1 log, reopening a v2 log being left out.
