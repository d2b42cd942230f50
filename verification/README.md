# IBR-DTN core logic in Dafny

A model of the sequential core of IBR-DTN, a delay-tolerant networking
stack implementing the Bundle Protocol (RFC 5050), and of two of its
Android front-ends. Each source file below is a Dafny module of immutable
datatypes and pure functions. Every state machine is a transition function.
Lemmas relate the operations to their inverses, to invariants they keep, or
to independent reference definitions.

| module | file | models |
|---|---|---|
| `Wrappers` | wrappers.dfy | `Option` and `Result`, used for null references and exceptions |
| `PrimaryBlock` | primary_block.dfy | the bundle primary block: processing flags, class-of-service priority (section 4.2 of RFC 5050), bundle equality and order (section 4.5.1 of RFC 5050), the creation-sequence counter `relabel` |
| `Clock` | clock.dfy | the `timeradd` / `timersub` fallback macros on `struct timeval` |
| `Retransmission` | retransmission.dfy | the retransmission extension: a set of pending (bundle, peer) records and a FIFO of due retransmissions driven by tick, requeue, completed, aborted and expired events |
| `Outbox` | outbox.dfy | the `dtnoutbox` tool: command-line configuration, swap and hidden file filters, observing new files, the send decision, the reconnect backoff |
| `Lowpan` | lowpan.dfy | the IEEE 802.15.4 convergence layer: discovery frame header, receive classification, connection list, timeout tick |
| `Mailbox` | mailbox.dfy | the message store the Talkie service calls (its implementation is not part of this model; see below) |
| `Talkie` | talkie.dfy | the Talkie service: the per-bundle receive handler and the command dispatcher |
| `Stats` | stats.dfy | the statistics column tables, their column maps, the native-counter copy, and the `"layer|tag"` split |

Calls into code that is not shown become inputs of the model:

- the clock and whether it is bad;
- the outcome of storage lookups and transfers;
- file-system and session results;
- the proximity sensor and the preferences.

Effects on the outside world become returned values, for example:

- the events raised by the retransmission extension;
- the commands and notifications of the Talkie service.

The Talkie service reads and writes messages through `MessageDatabase`,
which is not part of this model. The `Mailbox` module states what the
service relies on:

- messages are kept in insertion order;
- each has a store-assigned unique id;
- each has a `marked` flag, false on insertion;
- `nextMarked` returns the oldest message with the given flag;
- `getMarkedMessageCount` counts the messages with that flag;
- `mark` on a missing id changes nothing.

Three behaviours of the Talkie service, as the code has them:

- **Mark-delivered is conditional.** `endBundle` issues RECEIVED and then
  MARK_DELIVERED only inside `if (file != null)`, so a bundle without a
  payload file produces no command at all (`Talkie.EndBundle`,
  `Talkie.BundleOutcome`).
- **RECEIVED always emits PLAY_NEXT.** The RECEIVED handler emits PLAY_NEXT
  whatever the autoplay setting; the PLAY_NEXT handler is the one that
  checks autoplay (`Talkie.ReceivedStoresAndNotifies`,
  `Talkie.PlayNextEmitsPlay`).
- **The `marked` flag is modelled literally.** PLAY writes `false`, then
  `true`, and the notification counts the inbox messages whose flag is
  `false` (`Talkie.PlayMarks`, `Talkie.CreateNotification`).

Two observations about the code, proved as lemmas:

- **`>` is not asymmetric on bundles.** Two fragments of the same bundle
  with equal offset but different application data length are not equal,
  and neither is `<` the other. So each is `>` the other
  (`PrimaryBlock.GreaterNotAsymmetric`).
- **`relabel` repeats labels under a bad clock.** A bad clock stamps 0, and
  0 is not newer than an earlier good timestamp, so the counter continues.
  The labels handed out before the good timestamp can then be handed out
  again (`PrimaryBlock.BadClockRepeatsLabel`). With a clock that never
  runs backwards the labels are pairwise distinct
  (`PrimaryBlock.LabelsDistinct`).

## Model

Source paths are relative to the repository root.

| member | source | states |
|---|---|---|
| PrimaryBlock.Set | ibrdtn/ibrdtn/ibrdtn/data/PrimaryBlock.cpp:48-56 | after `set(flag, v)`, `get(flag)` reads `v`; every other flag and every other field is unchanged |
| PrimaryBlock.SetPriority | ibrdtn/ibrdtn/ibrdtn/data/PrimaryBlock.cpp:73-93 | LOW clears both priority bits, MEDIUM sets only bit 1, HIGH sets only bit 2; no other flag or field changes |
| PrimaryBlock.GetPriority | ibrdtn/ibrdtn/ibrdtn/data/PrimaryBlock.cpp:58-71 | MEDIUM iff bit 1 is set, HIGH iff only bit 2 is set, LOW iff neither is; no other flag matters |
| PrimaryBlock.PriorityRoundTrip | ibrdtn/ibrdtn/ibrdtn/data/PrimaryBlock.cpp:58-93 | `getPriority(setPriority(p)) == p` for every priority and every prior flag state |
| PrimaryBlock.BothPriorityBitsReadMedium | ibrdtn/ibrdtn/ibrdtn/data/PrimaryBlock.cpp:58-71 | with both priority bits set, `getPriority` reads MEDIUM because bit 1 is tested first |
| PrimaryBlock.Equal | ibrdtn/ibrdtn/ibrdtn/data/PrimaryBlock.cpp:100-114 | `==` holds iff source, timestamp, sequence number and FRAGMENT flag agree, and for fragments also offset and length; destination, lifetime and other flags play no part |
| PrimaryBlock.NotEqual | ibrdtn/ibrdtn/ibrdtn/data/PrimaryBlock.cpp:95-98 | `!=` holds iff the identifying keys (source, timestamp, sequence number, and fragment offset and length for fragments) differ |
| PrimaryBlock.EqualIsEquivalence | ibrdtn/ibrdtn/ibrdtn/data/PrimaryBlock.cpp:95-114 | `==` is reflexive, symmetric and transitive |
| PrimaryBlock.LessIrreflexive | ibrdtn/ibrdtn/ibrdtn/data/PrimaryBlock.cpp:116-134 | no bundle is `<` itself |
| PrimaryBlock.LessAsymmetric | ibrdtn/ibrdtn/ibrdtn/data/PrimaryBlock.cpp:116-134 | `a < b` excludes `b < a` |
| PrimaryBlock.EqualNotLess | ibrdtn/ibrdtn/ibrdtn/data/PrimaryBlock.cpp:100-134 | equal bundles are not ordered by `<` in either direction |
| PrimaryBlock.GreaterIsConverse | ibrdtn/ibrdtn/ibrdtn/data/PrimaryBlock.cpp:116-139 | unless both are fragments with the same offset, `a > b` holds exactly when `b < a` |
| PrimaryBlock.GreaterNotAsymmetric | ibrdtn/ibrdtn/ibrdtn/data/PrimaryBlock.cpp:116-139 | two fragments with equal offset and different lengths are each `>` the other |
| PrimaryBlock.Relabel | ibrdtn/ibrdtn/ibrdtn/data/PrimaryBlock.cpp:151-170 | a timestamp newer than the last seen resets the sequence to 0 and the counter to 1; otherwise the label takes the counter, which then advances; a bad clock stamps 0 |
| PrimaryBlock.NewBlock | ibrdtn/ibrdtn/ibrdtn/data/PrimaryBlock.cpp:35-42 | a new block has lifetime 3600, offset 0, data length 0, only DESTINATION_IS_SINGLETON set, and the label `relabel` gives (timestamp 0 under a bad clock) |
| PrimaryBlock.RelabelRunFresh | ibrdtn/ibrdtn/ibrdtn/data/PrimaryBlock.cpp:151-170 | a run of relabels under a non-decreasing clock, starting above every earlier label, yields labels that are pairwise distinct and not issued before |
| PrimaryBlock.LabelsDistinct | ibrdtn/ibrdtn/ibrdtn/data/PrimaryBlock.cpp:151-170 | with a clock that never runs backwards, all (timestamp, sequence number) labels are pairwise distinct |
| PrimaryBlock.BadClockRepeatsLabel | ibrdtn/ibrdtn/ibrdtn/data/PrimaryBlock.cpp:151-170 | the clock run bad, bad, good at 5, bad hands out label (0, 1) twice |
| Clock.TimerAdd | ibrdtn/ibrdtn/ibrdtn/utils/Clock.h:41-49 | the result's total microseconds are the sum of the inputs'; its seconds exceed `a.sec + b.sec` by at most one carry; normalised inputs give a normalised result |
| Clock.TimerSub | ibrdtn/ibrdtn/ibrdtn/utils/Clock.h:53-61 | the result's total microseconds are the difference of the inputs'; at most one second is borrowed; normalised inputs give a normalised result |
| Clock.SubUndoesAdd | ibrdtn/ibrdtn/ibrdtn/utils/Clock.h:41-61 | `timersub(timeradd(a, b), b) == a` for normalised `a`, `b` |
| Clock.AddUndoesSub | ibrdtn/ibrdtn/ibrdtn/utils/Clock.h:41-61 | `timeradd(timersub(a, b), b) == a` for normalised `a`, `b` |
| Retransmission.Increment | ibrdtn/daemon/src/routing/RetransmissionExtension.cpp:197-215 | increment adds one to the count and makes the record due `retry^(count-1)` seconds from now; bundle and destination stay |
| Retransmission.NewData | ibrdtn/daemon/src/routing/RetransmissionExtension.cpp:217-221 | a new record has count 1 and is due one second from now (`retry^0`) |
| Retransmission.RecordEqualityByKey | ibrdtn/daemon/src/routing/RetransmissionExtension.cpp:165-185 | record `==` holds iff bundle id and destination agree, never depends on count or due time, and `!=` is its negation |
| Retransmission.Notify | ibrdtn/daemon/src/routing/RetransmissionExtension.cpp:47-162 | every event keeps the backoff base; unrelated events change nothing; only expiry raises more than one event; only a requeue adds a pending pair, and only its own; the queue grows by at most one entry; ticks and expiries leave the pending set alone |
| Retransmission.NotifyPreservesValid | ibrdtn/daemon/src/routing/RetransmissionExtension.cpp:47-162 | every event keeps each pending record under its own key with a count between 1 and 8 |
| Retransmission.TickPopsDueHead | ibrdtn/daemon/src/routing/RetransmissionExtension.cpp:50-78 | a tick pops the queue head iff it is due at the tick's time, with one transfer, requeue or abort for it whatever the attempt's outcome; the set is untouched |
| Retransmission.RequeueUnknown | ibrdtn/daemon/src/routing/RetransmissionExtension.cpp:128-133 | requeue of an unknown pair inserts it with count 1 and appends it to the queue, raising nothing |
| Retransmission.RequeueKnown | ibrdtn/daemon/src/routing/RetransmissionExtension.cpp:106-127 | requeue of a known pair increments it; at most 8 re-inserts and re-queues it, beyond 8 drops it and raises one RETRY_LIMIT_REACHED abort |
| Retransmission.FinishedTransferForgets | ibrdtn/daemon/src/routing/RetransmissionExtension.cpp:80-98 | completed and aborted transfers erase the pair from the set and leave the queue unchanged |
| Retransmission.KeepContents | ibrdtn/daemon/src/routing/RetransmissionExtension.cpp:138-162 | after expiry exactly the entries of other bundles remain, and each removed entry produced one BUNDLE_DELETED abort |
| Retransmission.ExpiryKeepsOrder | ibrdtn/daemon/src/routing/RetransmissionExtension.cpp:138-162 | expiry keeps the survivors' relative order (filtering commutes with splitting the queue anywhere) and leaves the set alone |
| Retransmission.ExpireQueue | ibrdtn/daemon/src/routing/RetransmissionExtension.cpp:143-160 | the rotate-through-the-queue loop yields the order-preserving filter and the aborts in queue order |
| Outbox.Scan | ibrdtn/tools/src/dtnoutbox.cpp:104-147 | the option loop only adds or overwrites the option keys; every other key keeps its value |
| Outbox.ReadConfiguration | ibrdtn/tools/src/dtnoutbox.cpp:88-150 | fewer than three positional arguments give help; exactly three give name, outbox and destination from argv[1..3] with interval "5000" and rounds "3"; any successful read has name, outbox and destination from argv[1..3] and an interval and a rounds value |
| Outbox.ReadConfigurationOk | ibrdtn/tools/src/dtnoutbox.cpp:88-150 | with three positional arguments and no help or value option after them, reading succeeds |
| Outbox.DefaultsUnlessGiven | ibrdtn/tools/src/dtnoutbox.cpp:101-133 | interval stays "5000" and rounds "3" unless `-i` / `-r` occurs |
| Outbox.ScanLeavesUnmentioned | ibrdtn/tools/src/dtnoutbox.cpp:104-147 | a key that no later argument sets keeps its value |
| Outbox.AppendOption | ibrdtn/tools/src/dtnoutbox.cpp:104-147 | an appended `-w`/`-i`/`-r` with its value overrides earlier values (last wins); a switch sets its key to "1"; help stops; a value option without a value fails; any other argument is ignored |
| Outbox.Find | ibrdtn/tools/src/dtnoutbox.cpp:169-170 | `find(pat, pos)` returns the first match at or after `pos`, or none when there is none |
| Outbox.IsSwapMeaning | ibrdtn/tools/src/dtnoutbox.cpp:167-174 | `isSwap`, including the wrapped start position for short names, holds iff the name contains `~` or has length at least 4 and ends in ".swp" |
| Outbox.IsInvis | ibrdtn/tools/src/dtnoutbox.cpp:176-179 | a non-empty name is hidden iff it starts with '.'; an empty name throws |
| Outbox.Skipped | ibrdtn/tools/src/dtnoutbox.cpp:294-298 | system entries are skipped; otherwise swap files unless considered, then hidden files unless considered; an empty name throws out-of-range unless hidden files are considered, when it is kept |
| Outbox.Observe | ibrdtn/tools/src/dtnoutbox.cpp:292-316 | observed paths only grow, at the end, and stay duplicate-free, including the paths recorded before a filter throws |
| Outbox.ObserveFails | ibrdtn/tools/src/dtnoutbox.cpp:292-298 | a pass ends with an error iff some entry makes the hidden-file test throw |
| Outbox.ObserveAddsPassing | ibrdtn/tools/src/dtnoutbox.cpp:292-316 | every entry that passes the filters and comes before any throwing entry is observed afterwards |
| Outbox.ObserveAddsOnlyPassing | ibrdtn/tools/src/dtnoutbox.cpp:292-316 | every newly observed path belongs to an entry that passes the filters, so swap and hidden files stay out unless considered |
| Outbox.Select | ibrdtn/tools/src/dtnoutbox.cpp:345-356 | a file is selected iff its sizes are settled and (it changed since last sent or the clock is bad); the selection is in ascending order |
| Outbox.SelectionIndicators | ibrdtn/tools/src/dtnoutbox.cpp:347-352 | under a bad clock only the size decides; otherwise a file already sent at its latest timestamp is not sent |
| Outbox.NextBackoff | ibrdtn/tools/src/dtnoutbox.cpp:448-481 | one pass keeps the backoff among 2, …, 1024; a connect resets it to 2 (4 if the pass then failed); a socket or I/O failure while running doubles it below 600, and otherwise it stays |
| Outbox.Backoff | ibrdtn/tools/src/dtnoutbox.cpp:448-481 | the backoff is always one of 2, 4, …, 1024, and a round that connected and then stopped normally resets it to 2 |
| Outbox.FailuresDouble | ibrdtn/tools/src/dtnoutbox.cpp:448-481 | k failures in a row double the backoff k times until it passes 600, ending at 1024 |
| Lowpan.AnnouncementFrame | ibrdtn/daemon/src/net/LOWPANConvergenceLayer.cpp:231-248 | the frame is 0x08, 0x80, then the announcement, of length len + 2 |
| Lowpan.AnnouncementWriteAsWritten | ibrdtn/daemon/src/net/LOWPANConvergenceLayer.cpp:240-248 | the copy into the 115-byte buffer stays in bounds iff the announcement is at most 113 bytes |
| Lowpan.OversizedAnnouncementOverflows | ibrdtn/daemon/src/net/LOWPANConvergenceLayer.cpp:240-248 | a 114-byte announcement passes the length check with only a log message and overruns the buffer |
| Lowpan.Announcement | ibrdtn/daemon/src/net/LOWPANConvergenceLayer.cpp:240-248 | the intended announcement is sent iff it is at most 113 bytes, and the frame then fits the buffer |
| Lowpan.Classify | ibrdtn/daemon/src/net/LOWPANConvergenceLayer.cpp:273-288 | reads of length 0 or less are skipped; discovery frames yield the bytes after the header; everything else is data |
| Lowpan.AnnouncementRoundTrip | ibrdtn/daemon/src/net/LOWPANConvergenceLayer.cpp:231-288 | every frame `sendAnnoucement` sends is classified as discovery and yields the announcement back |
| Lowpan.DiscoveryIffHeaderBits | ibrdtn/daemon/src/net/LOWPANConvergenceLayer.cpp:281-288 | a frame is discovery iff `data[0] & 0x08` and `data[1] & 0x80` are both non-zero |
| Lowpan.GetConnection | ibrdtn/daemon/src/net/LOWPANConvergenceLayer.cpp:144-164 | returns the connection to the address; an existing one leaves the list unchanged, otherwise exactly one new entry is appended; the list stays duplicate-free |
| Lowpan.GetConnectionIdempotent | ibrdtn/daemon/src/net/LOWPANConvergenceLayer.cpp:144-164 | a second lookup of the same address returns the same connection and changes nothing |
| Lowpan.Remove | ibrdtn/daemon/src/net/LOWPANConvergenceLayer.cpp:166-179 | removes the first identical entry keeping the others in order; an absent connection changes nothing |
| Lowpan.RemovePreservesValid | ibrdtn/daemon/src/net/LOWPANConvergenceLayer.cpp:166-179 | removal keeps addresses and identities unique and leaves no entry of the removed connection |
| Lowpan.ApplyPreservesValid | ibrdtn/daemon/src/net/LOWPANConvergenceLayer.cpp:144-179 | a list built only by lookups and removals never holds two connections to one address |
| Lowpan.Queue | ibrdtn/daemon/src/net/LOWPANConvergenceLayer.cpp:121-142 | a node without a LoWPAN address changes nothing; otherwise the job goes to the connection for its first address, and the list becomes exactly what `getConnection` leaves, still duplicate-free |
| Lowpan.ReceiveFrame | ibrdtn/daemon/src/net/LOWPANConvergenceLayer.cpp:262-296 | skipped and discovery frames leave the list alone; data frames are queued on the sender's connection, and the list becomes exactly what `getConnection` leaves, still duplicate-free |
| Lowpan.OneTimeoutInFiveTicks | ibrdtn/daemon/src/net/LOWPANConvergenceLayer.cpp:306-315 | among any five consecutive second ticks exactly one triggers `timeout()`; what the timeout does to the connections is not part of this model |
| Mailbox.PutThenGet | android/Talkie/src/de/tubs/ibr/dtn/dtalkie/service/TalkieService.java:457-469 | a stored message reads back with the attributes inserted and an unset flag |
| Mailbox.Put | android/Talkie/src/de/tubs/ibr/dtn/dtalkie/service/TalkieService.java:457-469 | a message is appended unmarked under the next id, the id counter advances, and ids stay distinct |
| Mailbox.Mark | android/Talkie/src/de/tubs/ibr/dtn/dtalkie/service/TalkieService.java:375-416 | exactly the message with that folder and id takes the new flag; nothing else changes and ids stay distinct |
| Mailbox.NextMarked | android/Talkie/src/de/tubs/ibr/dtn/dtalkie/service/TalkieService.java:417-430 | the result is the oldest message of the folder with that flag |
| Mailbox.PutCounts | android/Talkie/src/de/tubs/ibr/dtn/dtalkie/service/TalkieService.java:457-476 | inserting raises the unmarked count of its folder by one and no other count |
| Mailbox.MarkReadCount | android/Talkie/src/de/tubs/ibr/dtn/dtalkie/service/TalkieService.java:375-416 | setting the flag of an unmarked message lowers the unmarked count by exactly one |
| Mailbox.NextMarkedIffCount | android/Talkie/src/de/tubs/ibr/dtn/dtalkie/service/TalkieService.java:417-430 | a next message with a flag exists iff the count for that flag is positive |
| Talkie.StartBundle | android/Talkie/src/de/tubs/ibr/dtn/dtalkie/service/TalkieService.java:121-123 | the bundle is remembered; file and descriptor are untouched |
| Talkie.StartBlock | android/Talkie/src/de/tubs/ibr/dtn/dtalkie/service/TalkieService.java:152-167 | FILEDESCRIPTOR is returned iff the block has type 1, no file is held and a temporary file was created; a held file is never replaced |
| Talkie.OpenFd | android/Talkie/src/de/tubs/ibr/dtn/dtalkie/service/TalkieService.java:192-205 | a descriptor is returned iff opening succeeds; a failure is logged and yields none; without a file the call dereferences null |
| Talkie.EndBlock | android/Talkie/src/de/tubs/ibr/dtn/dtalkie/service/TalkieService.java:169-186 | an open descriptor is closed unless closing fails; the file is kept |
| Talkie.EndBundle | android/Talkie/src/de/tubs/ibr/dtn/dtalkie/service/TalkieService.java:125-150 | RECEIVED then MARK_DELIVERED are issued iff a file is held; afterwards bundle and file are null; a file without a bundle dereferences null |
| Talkie.DeliverBlock | android/Talkie/src/de/tubs/ibr/dtn/dtalkie/service/TalkieService.java:152-205 | one block never replaces a held file; without one, the file held afterwards is the temporary file of a payload block, or none; the bundle is kept |
| Talkie.ReceiveBundle | android/Talkie/src/de/tubs/ibr/dtn/dtalkie/service/TalkieService.java:121-205 | a bundle that is handled without a fault leaves neither bundle nor file held |
| Talkie.BlocksKeepFirstFile | android/Talkie/src/de/tubs/ibr/dtn/dtalkie/service/TalkieService.java:152-205 | over any run of blocks the file held is the one created for the first payload block |
| Talkie.BundleOutcome | android/Talkie/src/de/tubs/ibr/dtn/dtalkie/service/TalkieService.java:121-205 | a whole bundle issues RECEIVED (with the first payload file) and MARK_DELIVERED iff it had a payload block whose file was created, nothing otherwise, and leaves the handler clean |
| Talkie.StreamFor | android/Talkie/src/de/tubs/ibr/dtn/dtalkie/service/TalkieService.java:321-327 | the VOICE_CALL stream is used iff the phone is at the ear, MUSIC otherwise |
| Talkie.CreateNotification | android/Talkie/src/de/tubs/ibr/dtn/dtalkie/service/TalkieService.java:515-555 | a notification with the unmarked inbox count is posted iff autoplay is off and the count is positive |
| Talkie.RemoveNotification | android/Talkie/src/de/tubs/ibr/dtn/dtalkie/service/TalkieService.java:506-513 | the notification is cancelled iff the unmarked inbox count is 0 |
| Talkie.PlaybackEffects | android/Talkie/src/de/tubs/ibr/dtn/dtalkie/service/TalkieService.java:328-356 | a started playback plays the file and the beep on one stream; PLAY_NEXT follows iff playback completed |
| Talkie.Handle | android/Talkie/src/de/tubs/ibr/dtn/dtalkie/service/TalkieService.java:359-477 | only PLAY of a missing message crashes; only PLAY and RECEIVED change the store; no command changes the proximity state |
| Talkie.PlayMarks | android/Talkie/src/de/tubs/ibr/dtn/dtalkie/service/TalkieService.java:375-416 | PLAY ends with the message marked whatever the playback outcome, plays on the sensor-chosen stream, and cancels the notification iff nothing unmarked is left |
| Talkie.PlayLowersCount | android/Talkie/src/de/tubs/ibr/dtn/dtalkie/service/TalkieService.java:375-416 | playing an unmarked inbox message lowers the unmarked count by one |
| Talkie.PlayNextEmitsPlay | android/Talkie/src/de/tubs/ibr/dtn/dtalkie/service/TalkieService.java:417-430 | PLAY_NEXT emits PLAY for the oldest unmarked inbox message iff autoplay is on and one exists; otherwise it does nothing |
| Talkie.ReceivedStoresAndNotifies | android/Talkie/src/de/tubs/ibr/dtn/dtalkie/service/TalkieService.java:457-476 | RECEIVED stores the message unmarked, always emits PLAY_NEXT last, and posts the raised count iff autoplay is off |
| Talkie.ReceiveAllCount | android/Talkie/src/de/tubs/ibr/dtn/dtalkie/service/TalkieService.java:457-476 | after n RECEIVED commands the unmarked inbox count has grown by n |
| Talkie.RecordedDeletesOnlyAfterSend | android/Talkie/src/de/tubs/ibr/dtn/dtalkie/service/TalkieService.java:431-456 | RECORDED sends with lifetime 1800 whenever the file opens, deletes the recording iff `send` returned (even with a null id), and keeps it on any exception |
| Talkie.OnSensorChanged | android/Talkie/src/de/tubs/ibr/dtn/dtalkie/service/TalkieService.java:479-491 | a non-empty sample sets on-ear iff the reading differs from the maximum range; an empty sample changes nothing |
| Talkie.OnPreferenceChanged | android/Talkie/src/de/tubs/ibr/dtn/dtalkie/service/TalkieService.java:493-504 | PLAY_NEXT is emitted iff the changed key is "autoplay" and it is now on |
| Stats.ProjectionConsistent | android/ibrdtn/src/de/tubs/ibr/dtn/stats/StatsEntry.java:57-96 | the projection has 16 distinct names; each `COLUMN_STATS_*` constant indexes its own column's name; the constants are exactly 0..15, one per column |
| Stats.DefaultColumnsMap | android/ibrdtn/src/de/tubs/ibr/dtn/stats/StatsEntry.java:286-302 | every field of the default map holds the projection position of its own column's name (the unset id field's 0 included) |
| Stats.CursorColumnsMap | android/ibrdtn/src/de/tubs/ibr/dtn/stats/StatsEntry.java:304-318 | only id and timestamp are looked up in the cursor (0 when missing); all other fields stay 0 |
| Stats.CursorMapOnProjection | android/ibrdtn/src/de/tubs/ibr/dtn/stats/StatsEntry.java:286-318 | over the projection's own columns the cursor map agrees with the default map on id and timestamp |
| Stats.FromNative | android/ibrdtn/src/de/tubs/ibr/dtn/stats/StatsEntry.java:126-142 | every field is the native counter of the same name; the id stays null |
| Stats.ClProjectionConsistent | android/ibrdtn/src/de/tubs/ibr/dtn/stats/ConvergenceLayerStatsEntry.java:33-48 | the five names are distinct and each constant indexes its own column's name |
| Stats.DefaultClColumnsMap | android/ibrdtn/src/de/tubs/ibr/dtn/stats/ConvergenceLayerStatsEntry.java:121-126 | every field of the default map holds the projection position of its own column's name |
| Stats.CursorClColumnsMap | android/ibrdtn/src/de/tubs/ibr/dtn/stats/ConvergenceLayerStatsEntry.java:128-142 | only id and timestamp are looked up (0 when missing); the other fields stay 0 |
| Stats.JavaSplit | android/ibrdtn/src/de/tubs/ibr/dtn/stats/ConvergenceLayerStatsEntry.java:71 | `split("\\|")` gives the string itself when it has no separator, else its pieces without the trailing empty ones |
| Stats.PiecesJoin | android/ibrdtn/src/de/tubs/ibr/dtn/stats/ConvergenceLayerStatsEntry.java:71 | joining the pieces with separators gives back the string, and no piece holds a separator |
| Stats.SplitTag | android/ibrdtn/src/de/tubs/ibr/dtn/stats/ConvergenceLayerStatsEntry.java:71-74 | layer and data tag are split elements 0 and 1; fewer elements fail with the first index out of bounds |
| Stats.SplitTagOk | android/ibrdtn/src/de/tubs/ibr/dtn/stats/ConvergenceLayerStatsEntry.java:71-74 | the split succeeds iff some character after the first separator is not a separator |
| Stats.SplitTagParts | android/ibrdtn/src/de/tubs/ibr/dtn/stats/ConvergenceLayerStatsEntry.java:71-74 | the layer is the text before the first separator and the data tag the text up to the next one; later parts are ignored |
| Stats.SplitTagRoundTrip | android/ibrdtn/src/de/tubs/ibr/dtn/stats/ConvergenceLayerStatsEntry.java:71-74 | "L|T", and "L|T|…", give back L and a non-empty T |
| Stats.SplitTagFails | android/ibrdtn/src/de/tubs/ibr/dtn/stats/ConvergenceLayerStatsEntry.java:71-74 | "L" and "L|" fail to split |
| Stats.FromNativeTagged | android/ibrdtn/src/de/tubs/ibr/dtn/stats/ConvergenceLayerStatsEntry.java:67-76 | the entry takes the layer and tag from the split and the value from the native data at the index; a tag that does not split fails |

## Left out

- PrimaryBlock: `isExpired` and `toString` depend on the clock and bundle-id code, which is not part of this model.
- PrimaryBlock: the endpoint-identifier order is abstract in the source; the model uses lexicographic order on the identifier text.
- PrimaryBlock: the flag header is not part of this model; FRAGMENT, DESTINATION_IS_SINGLETON and the two priority flags use the bit positions of section 4.2 of RFC 5050 (0, 4, 7, 8).
- PrimaryBlock: timestamps and sequence numbers are unbounded naturals; 64-bit wrap-around of the counter is not modelled.
- PrimaryBlock: the mutex around the counter is left out, because the model is sequential.
- PrimaryBlock.GreaterIsConverse: stated only outside the case of two fragments with the same offset, because there `>` is not the converse of `<` (see `GreaterNotAsymmetric`).
- Clock: the declared-only functions (`isExpired`, `getTime`, rating, `toDouble`) have no body in the source; they partly use floating point.
- Clock: `timerclear` assigns a field that `struct timeval` does not have.
- Clock: `long` overflow is not modelled.
- Retransmission.Increment: the backoff is computed with float `pow` in the source; the model uses exact integer powers, so float rounding of very large due times is not modelled.
- Retransmission: the storage lookup and `transferTo` are an input (`Attempt`), and the raised events are outputs; the mutex is left out.
- Retransmission: the pending set is a map keyed by (bundle id, destination), the pair that the record's own `==` and `!=` compare. The `std::set` looks records up with `operator<`, which is declared in a header that is not part of this model; the order the set keeps is not modelled either.
- Retransmission.RequeueUnknown: assumes the set's comparator includes the destination. If it compared the bundle id alone, a requeue for a second peer would find and bump the first peer's record.
- Retransmission.RequeueKnown: assumes the set's comparator includes the destination, as `RequeueUnknown` does.
- Retransmission.FinishedTransferForgets: assumes the set's comparator includes the destination. If it compared the bundle id alone, a finished transfer to one peer would also erase the pending record of another peer.
- Outbox: sockets, signals, sleeping, archive building, the FAT image, and `ObservedFile` are left out; the size and timestamp checks are inputs (`Observation`).
- Outbox: the existence check that erases an observed file and then continues with the erased iterator is left out, because its behaviour is undefined.
- Outbox.ReadConfiguration: a value option given as the last argument reads `argv[argc]`, a null pointer; the model turns this into an error (`MissingValue`) instead of undefined behaviour.
- Outbox.IsSwapMeaning: names are assumed shorter than 2^64 bytes, which `size_t` guarantees.
- Lowpan: sockets, `select`, the netlink address lookup, threads, and discovery-announcement serialisation are left out; announcements are opaque byte strings.
- Lowpan: `timeout()` is not defined in the convergence layer's own files, so its effect on the connections is not part of this model; only when it fires is modelled.
- Lowpan.Classify: a received frame is not bounded by the MTU; a one-byte frame reads its second byte as 0, because the receive buffer is zero-filled (an MTU of at least 2 is assumed).
- Talkie: the MediaPlayer prepare/complete handshake (lock, `wait`, `notifyAll`) is one atomic step whose outcome is an input. A player error that never signals completion, which would block the service, is not modelled.
- Talkie: DTN client and session calls, the sound pool, the notification builder (title, lights, ringtone), preference storage, and `onCreate` / `onDestroy` are left out.
- Talkie: dates are integers.
- Talkie.OnSensorChanged: Java `float` is modelled as a real number, so NaN readings are not modelled.
- Mailbox: the real message database (SQL, change broadcasts) is not part of this model; only the behaviour listed above is assumed.
- Stats: the entry constructors that read from a cursor, and date parsing and formatting, are left out.
- Stats: the conversion of the native timestamp to a `Date` is left out; the timestamp is kept as is.
- Stats: `getData` of the native object is a function parameter.

## Findings

| source | as written | input that shows it | evidently intended | confidence | as-written member | corrected member |
|---|---|---|---|---|---|---|
| ibrdtn/daemon/src/net/LOWPANConvergenceLayer.cpp:240-248 | an announcement longer than 113 bytes is only logged, then copied into the 115-byte buffer anyway | a serialised announcement of 114 bytes: the copy writes 116 bytes into a 115-byte buffer | an oversized announcement is not copied or sent | not executed | Lowpan.OversizedAnnouncementOverflows | Lowpan.Announcement |
