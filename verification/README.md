# tcp-info, modelled and proved

tcp-info polls the Linux kernel over netlink for the state of all TCP connections. Every poll yields a block of
messages. The saver parses each message into a record, keeps the records of the last two polls in a cache, queues a
record to the log file of its connection when it differs significantly from the one of the poll before, adds up the
bytes of all connections, announces connections that appear and disappear, and leaves the writing of the files to
parallel marshallers.

This project models that pipeline and proves what holds of every run of it.

- `SaverModel` is the saver as a state machine. A run is any sequence of enabled actions: a record arrives, the cycle
  ends, one expired cookie is taken from the residual, the block is reported, Close visits one connection, the saver
  stops, and, at any point in between, a marshaller rewrites the addresses of a cached record (`Scrub`). The
  environment decides the number of marshallers, every reading of the clock and every attempt to open a file.
- `SaverObject.Saver` is the saver as an object whose methods update fields in place, loop by loop as in the source.
  `MessageSaverLoop` shows that whatever it does is a run of the state machine over exactly the messages of its blocks
  that yield a record, so every theorem about runs is one about the object. `Intake` says which messages those are.
- `Files`, `Pipeline`, `Rotation`, `FlowEvents`, `DeltaLog`, `ConnectionLog`, `CacheCounts`, `Accounting`,
  `Conservation`, `Masking`, `ClosingTotals`, `Rates`, `EventDetails` and `Anonymity` each prove one thing of all runs.
  `SmallRuns` builds runs with a single connection, from which the runs that show a failure are made; `Miscounts` has
  those about the totals.
- `Bytes`, `InetDiag`, `RouteAttr`, `Archival` and `Cache` are the parser, the record table, the differ and the cache.
  `LittleEndian`, `Messages` and `CompareAnswers` say what these make of the bytes of a message, with all offsets,
  lengths and types written as numbers.
- `Snapshot` (with `Bits`) is the decoder of saved records, `EventServer` the broadcast of connection events.

## What came out

- **Byte accounting.** At the end of every cycle of every run, whatever the records are, the totals are
  `truth + excess - dropped + doubled` modulo 2^64, where `truth` adds up the last counters of all sessions ever seen
  and the other three sums are defined by the records alone. `excess` counts sessions that lost their TCPInfo and
  regained it; `dropped` and `doubled` come from a cookie that turns up twice in one cycle (or a record without a
  header). Without overflow the totals are what the tables show exactly when these cancel out (`DeviationsExact`), and
  are the counters really observed exactly when they also make up for what long tables without counters hide
  (`ObservedExact`). With distinct cookies and real counters that is when no session regains counters it had lost
  (`ConservationExact`); one that does is counted twice (`ReturnCountsTwice`).
- **The "bad accounting" workaround** (`saver/saver.go:391-397`). In every run the reported value is what the totals came
  to at the last report that was accepted, so the total is below it exactly when they come to less now
  (`WorkaroundExact`, `DecreaseExact`). With distinct cookies per cycle they fall exactly at a record whose counter is
  below that of the record before, of a connection whose TCPInfo was not lost in between (`NetFallsExactly`); a
  connection that regains its TCPInfo may show any value. One record whose table reaches past the TCPInfo slot while that
  slot is nil or too short is such a fall: `HasDiagInfo` looks only at the length of the table, `GetStats` returns zeros,
  and the bytes of the connection leave the totals (`MissingSlotTripsWorkaround`). For any records there is one more cause,
  and no other (`ExpectedFallsExactly`): a block ends in which a cookie was repeated, so that a connection reported twice
  counts only once in the next block (`RepeatTripsWorkaround`).
- **Closing stats.** In every run `ClosingTotals` is the sum of `ClosingStats` plus all entries that were overwritten, and
  taking out an entry never underflows within 64 bits. It is the sum exactly when no entry with bytes in it was
  overwritten, which takes a connection that loses its TCPInfo, regains it and loses it again
  (`SecondLossBreaksSum`). That the entries are about closing connections only is broken exactly by a record that comes
  back with TCPInfo.
- **Events.** The events of a cookie alternate, in step with its connection, exactly when no stray close occurs (of a
  cookie that has no connection, or one without a file). A cookie of 0 is closed without ever having been opened, and a
  connection whose only file fails to open is closed twice.
- **Log.** The last record handed to `queue` for a cached cookie always stands for the newest one, and it was queued
  exactly when the cookie is not 0 and the file was there or could be opened at that moment. The files of a connection,
  read in order of opening, are exactly the records queued for it, except those of an unknown address family, which no
  marshaller writes. After a failed open, an unchanged connection is never tried again.
- **Parser.** An attribute area that is not a multiple of 4 bytes can be sliced out of range; a multiple of 4 never is.
- **Decoder.** The masks are exact for tables of up to 257 slots, and slot 257 aliases slot 1. An empty congestion
  attribute is sliced out of range. For TCPInfo under 208 bytes, as older kernels send it, the decoder sees counters that
  `GetStats` reports as zero.

## Where code and documentation differ

The model follows the code. `Rotate` takes a `FileAgeLimit` and ignores it in favour of a constant 10 minutes
(`saver/saver.go:120`, `saver/saver.go:139`). The cache describes its keys as inodes (`cache/cache.go:21`,
`cache/cache.go:50`) and uses cookies. `HasDiagInfo` promises a DIAG_INFO message (`netlink/archival-record.go:339`) and
checks only that the table is long enough for one.

## Model

| member | source | states |
|---|---|---|
| Accounting.BytesAreConserved | saver/saver.go:388-389 | at the end of every cycle of every run the totals are, modulo 2^64, the last counters of all sessions ever seen, plus counters regained after a loss, minus those dropped and plus those doubled by repeated cookies, with no assumption on the records |
| Accounting.RunKeepsAccounts | saver/saver.go:336-383 | after every action of every run, closed bytes, ClosingTotals and the counters in both cache generations add up to what the reference ledger of sessions says, and the ledger agrees with the newest record of every cached cookie |
| Accounting.RunTracks | saver/saver.go:300-326 | the uint64 sums of the saver are at all times the unbounded sums modulo 2^64, through every wrap-around and every subtraction |
| Bytes.WrapIsRemainder | saver/saver.go:190-194 | what a uint64 keeps of an integer, negative or not, is its remainder modulo 2^64 |
| Accounting.ReceiveMovesBalance | saver/saver.go:430-462 | one record, first or repeated, with or without TCPInfo, moves the saver's books exactly as far as it moves the ledger |
| Accounting.ExpireKeepsAccounts | saver/saver.go:347-369 | taking an expired cookie from the residual moves its bytes to closed without gain or loss, whether they come from its record or from ClosingStats |
| Conservation.ConservationExact | saver/saver.go:388-389 | with distinct cookies per cycle and counters wherever HasDiagInfo says so, the totals equal the counters really observed, if and only if no session with counted bytes lost its counters and regained them |
| Conservation.DeviationsExact | saver/saver.go:388-389 | for any records, without overflow, the totals equal the last counters shown in all sessions if and only if regained plus doubled counters equal dropped ones |
| Masking.ObservedExact | saver/saver.go:388-389 | for any records, without overflow, the totals equal the counters really observed in all sessions if and only if regained plus doubled counters equal dropped ones plus those hidden by long tables without counters |
| Masking.TruthIsShownAndMasked | netlink/archival-record.go:340-361 | in every run the counters really observed are those that HasDiagInfo and GetStats show plus those hidden by records with a long table and no counters |
| Masking.PresentIsUnmasked | netlink/archival-record.go:340-342 | nothing is hidden when every table that reaches slot 2 has counters there |
| Miscounts.ReturnCountsTwice | saver/saver.go:452-459 | for any connection shown, hidden and shown again, a run with distinct cookies exists in which the totals have its bytes twice while the counters observed have them once |
| Conservation.ExcessExact | saver/saver.go:452-459 | the excess is zero if and only if no session that had counted bytes ever regained its counters |
| Conservation.InOrderIsClean | saver/saver.go:302-323 | records with headers and distinct cookies within each cycle leave nothing dropped and nothing doubled |
| Conservation.ViewsAgree | netlink/archival-record.go:340-342 | when every table that reaches slot 2 has counters there, what HasDiagInfo shows of a run is what is really in its records |
| Conservation.WorkaroundExact | saver/saver.go:398-422 | in every run, for any records, the total is below the reported value if and only if what the totals come to now is, as uint64, below what they came to at the last accepted report |
| Conservation.ReportedIsExpected | saver/saver.go:398-422 | in every run the reported value is, as uint64, the sum of the ledger at the last accepted report |
| Conservation.DecreaseExact | saver/saver.go:398-403 | with distinct cookies and sums that fit 64 bits, the branch for a total below the reported value is taken if and only if the exact sum of all sessions is below that of the last accepted report |
| Conservation.ExpectedFallsExactly | saver/saver.go:388-389 | for any records, an action lowers what the totals come to if and only if it is the first record in its block of a session in sight whose counter is below the one before, or ends a block in which counters were doubled |
| Conservation.NetFallsExactly | saver/saver.go:430-462 | with distinct cookies, an action lowers the exact sum if and only if it is a record, of a session in sight, whose counter is below the one before |
| Conservation.ReportWithinNet | saver/saver.go:398-422 | as long as no session in sight falls, the exact sum is never below that of an accepted report |
| Conservation.TotalsDoNotDecrease | saver/saver.go:398-403 | with distinct cookies, no session in sight whose counter falls, and no overflow, the branch for a total below the reported value is unreachable, whatever values regained counters have |
| Miscounts.MissingSlotTripsWorkaround | saver/saver.go:391-403 | for every record with counters followed by one of the same cookie whose table is long but whose TCPInfo slot is empty, a run exists in which the total falls to zero below the reported value |
| Miscounts.RepeatCountsTwice | saver/saver.go:302-323 | a record that arrives twice in one block is counted twice in the totals |
| Miscounts.RepeatTripsWorkaround | saver/saver.go:391-403 | when it then arrives once in the next block, the total is half the reported value |
| ClosingTotals.ClosingTotalsExact | saver/saver.go:355-364 | in every run ClosingTotals is, as uint64, the sum of ClosingStats plus what was overwritten; within 64 bits it is the sum if and only if nothing was overwritten, and removing any entry does not underflow |
| ClosingTotals.OverwrittenExact | saver/saver.go:455-459 | what was overwritten in a run is never negative, and zero if and only if no record stored closing stats over an entry with bytes in it |
| ClosingTotals.TotalsAreSumsAndOverwritten | saver/saver.go:452-459 | the identity behind it, before wrap-around, for every run |
| ClosingTotals.OverwritingBreaksSum | saver/saver.go:455-459 | an action keeps ClosingTotals equal to the sum if and only if it does not overwrite an entry with bytes in it |
| ClosingTotals.SecondLossBreaksSum | saver/saver.go:455-459 | for any record with and any without TCPInfo of one connection, a run exists in which ClosingTotals has its bytes twice and ClosingStats once |
| ClosingTotals.ClosingTotalsAreSums | saver/saver.go:355-364 | while no closing cookie comes back with TCPInfo, nothing is overwritten and ClosingTotals is the sum of ClosingStats |
| ClosingTotals.RunKeepsKeys | saver/saver.go:452-459 | while no closing cookie comes back with TCPInfo, in every reachable state ClosingStats is only about cached cookies whose newest record lacks TCPInfo |
| ClosingTotals.ComebackBreaksKeys | saver/saver.go:455-459 | a record keeps ClosingStats about closing cookies if and only if it is not a comeback |
| Rates.ObservationsAddUp | saver/saver.go:386-425 | in every run, whatever the accounting does, the histogram of each counter holds exactly its observations, each paired with the second of its report, at most one per second and in order; they sum to 8 times the bytes reported and each lies in range |
| Rates.ObservationInRange | saver/saver.go:398-409 | an observation lies between 0 and 10 times the switch speed even when the uint64 threshold wraps |
| Rates.ObservationExact | saver/saver.go:398-409 | a total is accepted if and only if it is 0 to 12.5 billion bytes above a reported value that is at least as far below 2^64, and is observed as 8 times the difference |
| Rates.ObservedWhen | saver/saver.go:386-425 | a block adds an observation if and only if its time, in nanoseconds, is in a later second than the last report and the total is in that range; it carries the second that contains the time |
| Rates.SecondOf | saver/saver.go:386 | the second of a time is the one whose billion nanoseconds contain it, before 1970 as well |
| Rates.FirstReport | saver/saver.go:333 | with a total of at most 12.5 billion bytes the first block is observed if and only if it lies past the first second of the year 1 |
| Rates.IdleSecondIsObserved | saver/saver.go:398-409 | a new second in which no bytes were added is observed as 0 |
| DeltaLog.DeltaLogIsLossless | saver/saver.go:430-480 | at every point of every run the last record handed to queue for a cached cookie equals its newest record up to addresses and ignored fields, however many unqueued records lie between; it was queued if and only if queue had a nonzero cookie and a file, or could open one, at that moment |
| DeltaLog.RunKeepsLog | saver/saver.go:464-478 | every action keeps the cache disjoint and the log up to date for every cached cookie, also while marshallers rewrite addresses |
| DeltaLog.QueueIsATry | saver/saver.go:246-286 | queue is the last attempt for the cookie of its record and for no other |
| DeltaLog.QueueOutcome | saver/saver.go:252-285 | queue puts its record into a file if and only if the cookie is not 0 and the connection has a file that has not expired or a new one can be opened |
| DeltaLog.LastTryExact | saver/saver.go:246-286 | in every run, whether the last record of a cookie was queued or dropped is decided by that condition at the moment it was handed over |
| DeltaLog.DropsExact | saver/saver.go:253-283 | in every run no record handed to queue is dropped if and only if that condition held for every one of them |
| DeltaLog.NothingDropped | saver/saver.go:253-283 | with nonzero cookies and files that open, no record handed to queue is dropped in any run |
| DeltaLog.DroppedStaysDropped | saver/saver.go:464-478 | a record that queue failed on stays the last one tried, through any number of blocks and other connections, as long as no record of its connection differs from the one before; the newest record is then one that was not queued |
| DeltaLog.FailedOpenStaysLost | saver/saver.go:464-478 | when the first file of a connection fails to open, any number of further blocks with the same record queue nothing |
| ConnectionLog.LogIsWhatWasQueued | saver/saver.go:65-85 | whenever the channels are drained, in whatever order, the files of a connection read in order of opening hold exactly the records queued for it, anonymized, in order of queueing |
| ConnectionLog.NewestIsInTheLog | saver/saver.go:430-480 | whenever the channels are drained, the last record in the files of a cached cookie equals its newest record up to addresses and ignored fields, if the last record handed to queue was queued and has a known family |
| ConnectionLog.FirstRecordIsQueued | saver/saver.go:278-285 | any first record with a nonzero cookie whose file opens gives a run to which NewestIsInTheLog applies |
| ConnectionLog.RunKeepsNewest | saver/saver.go:274-284 | in every run each record goes to what is then the newest file of its connection |
| ConnectionLog.LinesExact | saver/saver.go:74-81 | a queued record leaves one line, itself with rewritten addresses, if its address family is IPv4 or IPv6, and none otherwise |
| Files.EveryFileIsClosedOnce | saver/saver.go:274-296 | in every run, whichever opens fail, no file gets a task before it is opened or after its close task, all its tasks are on one channel, it gets at most one close task, and exactly one once the saver has stopped |
| Files.RunKeepsFiles | saver/saver.go:246-296 | every action keeps the file protocol, and every file still open is held by exactly the connection it belongs to |
| Files.ClosedWereOpened | saver/saver.go:288-296 | a history of effects that keeps the protocol closes only opened files, each at most once |
| Pipeline.ContentsAtAnyTime | saver/saver.go:65-85 | at every moment of every interleaving of the saver with its marshallers, a file together with the tasks still in its channel is its header followed by the records queued to it in order, and no marshaller has touched a closed file |
| Pipeline.FilesAtAnyTime | saver/saver.go:65-85 | that is so in every run of the saver, stopped or not |
| Pipeline.ScheduleDoesNotMatter | saver/saver.go:65-92 | all interleavings that complete leave the same files |
| Pipeline.NoDeadlock | saver/saver.go:87-92 | with bounded channels, as long as anything is left to do some goroutine can move |
| Pipeline.SendWaits | saver/saver.go:87-92 | the saver waits if and only if the channel of its next task holds 100 tasks, and no channel ever holds more |
| Pipeline.SchedulesAreFinite | saver/saver.go:65-92 | every interleaving ends within two moves per effect |
| Pipeline.SavedFilesAreComplete | saver/saver.go:483-494 | when the saver has stopped and the channels are drained, in whatever order, every file is closed and holds its header and exactly its queued records, anonymized and in order |
| Pipeline.NextTaskFits | saver/saver.go:284-293 | what is at the head of any channel is for a file that exists, belongs to that channel and is still open |
| Rotation.FilesAreNumberedAndPaced | saver/saver.go:106-142 | in every run, whichever opens fail, the files of a connection are numbered from 0 without gaps under its start time, its expiration is 10 minutes per file past its creation, and with a clock that does not go back it has opened at most one file per 10 minutes, plus one |
| Rotation.RotatedOnTime | saver/saver.go:274-283 | opening the next file keeps numbering, headers and times right for all connections |
| FlowEvents.EventsOfEveryRun | saver/saver.go:260-296 | in every run, opens plus stray closes of a cookie equal its closes plus its connections; its events strictly alternate from an open on, in step with its connection, if and only if there are no strays |
| FlowEvents.ConnectionsFollowCache | saver/saver.go:347-383 | with nonzero cookies and files that open, the connections are exactly the cached cookies before every message and exactly the previous generation after the residual loop, events alternate, and opens equal closes after Close |
| FlowEvents.BalanceExact | saver/saver.go:288-296 | whatever fails, opens and closes of a cookie balance if and only if its stray closes equal the connections it has left |
| FlowEvents.ZeroCookieUnbalances | saver/saver.go:252-255 | a connection with cookie 0 is announced as closed without ever having been announced as open |
| FlowEvents.FailedOpenUnbalances | saver/saver.go:288-296 | a connection whose only file fails to open is announced as open once and as closed twice, when it expires and at shutdown |
| EventDetails.EventsTellTheTruth | saver/saver.go:268-289 | in every run an opening is announced with time, cookie and socket of a record that was received, and a close with a reading of the clock |
| EventDetails.ConnectionsAsAnnounced | saver/saver.go:106-110 | in every run a connection has the start time and the socket of the last opening announced for its cookie |
| CacheCounts.NewLessExpired | saver/saver.go:382-439 | in every run new less expired connections is the size of the cache plus the repeats within cycles, and at the end of a cycle it is the cache size if and only if no cookie was ever repeated within one |
| CacheCounts.CountersExact | saver/saver.go:382-471 | in every run the total is the number of records received, the expired that of cookies taken from the residual, and new plus changed that of records handed to queue |
| Anonymity.AnonymizationIsInvisible | saver/saver.go:65-85 | leaving the in-place anonymization out of any run, wherever it interleaves, gives a run with the same files, tasks, events, connections, counts and totals, and the same cache up to addresses |
| Anonymity.AnonymizingScrubs | inetdiag/structs.go:303-329 | what a marshaller leaves of a cached record is that record but for address bytes, with the same cookie |
| Anonymity.StepSame | saver/saver.go:430-480 | from states that differ only in addresses, the saver can do the same actions and reaches states that differ only in addresses |
| SaverObject.Saver.MessageSaverLoop | saver/saver.go:329-428 | handling any list of blocks leaves the object in the final state of a run that ends one block per block, with its v4 time; the records received correspond one to one, and in order (block, v4 before v6, index), to the messages of which a record is made, each with the time of its list and received in its block |
| SaverObject.Saver.HandleBlock | saver/saver.go:336-426 | one block takes a run between blocks to a longer run between blocks; what it has received in addition corresponds in the same way to the messages of the block, v4 before v6 |
| Intake.BlocksCome | saver/saver.go:336-343 | the records of a list of blocks correspond one to one, and in order, to the messages that are not nil and of which a record is made; none is left out |
| Intake.OneBlockComes | saver/saver.go:342-343 | the same of the records of one block, at any place in the list of blocks |
| Intake.ArrivalsAreReceives | saver/saver.go:300-343 | the arrivals of a run are exactly its receive actions, in order, each counted to the block in which it happened |
| SaverObject.Saver.HandleType | saver/saver.go:300-326 | the returned bytes are those the run has added to its live sum, and the run has received one record for every message that yields one |
| SaverObject.Saver.ExpireResidual | saver/saver.go:351-383 | the residual loop, in any order of the map, extends the run until the residual is empty and returns the run's closed bytes |
| SaverObject.Saver.SwapAndQueueRecord | saver/saver.go:430-480 | the in-place update leaves the state that the state machine's receive step does, in all cases: no header, new cookie, unchanged, changed |
| SaverObject.Saver.QueueRecord | saver/saver.go:246-286 | connections, files, tasks, events and clock readings end up as in the state machine, and success is reported exactly when the record went to a file |
| SaverObject.Saver.EndConnection | saver/saver.go:288-296 | the event is sent in any case, and the file is closed and the connection removed only when there is a file |
| SaverObject.Saver.Rotate | saver/saver.go:120-156 | opening a file, or failing to, leaves number, expiration, header and writer as in the state machine |
| SaverObject.Saver.ReportRates | saver/saver.go:386-425 | reported values and observations change as in the state machine's report |
| SaverObject.Saver.CloseAll | saver/saver.go:483-494 | ending the connections in any order extends the run to its stopped state |
| SaverObject.Saver.constructor | saver/saver.go:217-242 | a new saver is in the initial state of the state machine |
| Cache.Cache.Update | cache/cache.go:35-47 | the cache is at all times the last-writer view of the last finished and the unfinished cycle; the evicted record is the last one of the previous cycle on the first occurrence of a cookie and none later; without a header nothing changes |
| Cache.Cache.EndCycle | cache/cache.go:52-62 | the residual holds exactly the cookies that occurred in the previous cycle and not in this one, each with its last record of the previous cycle; the cycle counter goes up by one |
| Cache.UpdateRefinesHistory | cache/cache.go:35-47 | updating the two maps is the same as appending the record to the history of the cycle |
| Cache.LastOfMeaning | cache/cache.go:41 | what a generation holds for a cookie is its last record in the history of the cycle |
| Cache.EndCycleRefinesHistory | cache/cache.go:52-62 | turning the maps over is the same as starting a new cycle in the history |
| Archival.UnchangedExact | netlink/archival-record.go:165-246 | Compare reports no major change if and only if both records have TCPInfo and the same significant part: state, TCPInfo bytes 0 to 43 and 60 to 167, table length and all other slots, nil or not |
| Archival.UnchangedIsEquivalence | netlink/archival-record.go:165-246 | no major change is symmetric, transitive, and reflexive exactly on the records with header and TCPInfo |
| Archival.CompareSwaps | netlink/archival-record.go:208-231 | swapping the two records exchanges new and lost attributes and changes no other result |
| Archival.Compare | netlink/archival-record.go:165-246 | the early-exit loop returns what the specification does that the lemmas above and the two below characterise answer by answer, including a missing or unparsable previous record |
| CompareAnswers.EarlyAnswers | netlink/archival-record.go:165-205 | an if-and-only-if for each answer before the tables: no previous record, a header under 72 bytes, another state in byte 1, no TCPInfo, a difference in its bytes 0 to 43 or 60 to 167 |
| CompareAnswers.TableAnswers | netlink/archival-record.go:207-245 | an if-and-only-if for each answer at the tables: new or lost attribute by length or by the first differing slot other than 2, other length or other bytes in that slot, no major change when there is none |
| Archival.AddressesDoNotMatter | netlink/archival-record.go:165-246 | HasDiagInfo, GetStats and Compare return the same for records that differ only in address bytes |
| Archival.TableKeepsAll | netlink/archival-record.go:94-116 | the last attribute of every type up to 38 is in its slot, and larger types are the only data dropped |
| Archival.LastValueMeaning | netlink/archival-record.go:105-116 | a slot is nil exactly when its type is absent, and otherwise holds the value of the last attribute of that type |
| Archival.TableLength | netlink/archival-record.go:94-104 | the table has slot n if and only if n is 0, or at most 38 and some attribute has type n or more |
| Archival.BuildTable | netlink/archival-record.go:94-116 | the two loops over the attributes build the table that these lemmas are about; it has slot n if and only if n is 0, or at most 38 and some attribute has type n or more |
| Archival.MakeArchivalRecord | netlink/archival-record.go:69-118 | message type, header, local addresses and attributes are handled in the order of the source, with each error; what the record then holds of the message is said by the next two |
| Archival.RecordTellsMessage | netlink/archival-record.go:88-117 | of any message that yields a record, the header is the first 72 bytes and the last attribute of each type up to 38, wherever it lies, is in its slot byte for byte |
| Archival.MessageRoundTrip | netlink/archival-record.go:69-118 | a message made of any header that is not local and any encoded attribute list yields the record with that header and the table of that list |
| Messages.MessageOutcome | netlink/archival-record.go:69-93 | an if-and-only-if for each outcome of a message: type other than 20, under 72 bytes, left out as local by one of its two addresses, EINVAL or out of range by how the walk over its attributes ends, and a record otherwise |
| Messages.DiagInfoInMessage | netlink/archival-record.go:340-342 | HasDiagInfo holds of a record if and only if some attribute on the walk over its message has type 2 or more |
| Messages.OneMemInfo | netlink/archival-record.go:94-104 | a message with one attribute of type 1 yields a table of two slots and no HasDiagInfo |
| Messages.StatsInRecord | netlink/archival-record.go:348-361 | GetStats returns two numbers if and only if their little-endian bytes are in TCPInfo at 200 (sent) and 128 (received), and zeros when TCPInfo is missing or under 208 bytes |
| Messages.CookieInHeader | inetdiag/structs.go:196-199 | a header has cookie c if and only if bytes 44 to 51 are the little-endian bytes of c |
| Messages.SocketInHeader | inetdiag/structs.go:153-193 | source and destination address are bytes 8 to 23 and 24 to 39, cut to 4 when the other 12 are zero; the ports are bytes 4 to 7 and the interface bytes 40 to 43, highest byte first |
| LittleEndian.U64Reads | netlink/archival-record.go:358-359 | a 64 bit read finds x if and only if the bytes there are x / 256^i modulo 256 for i from 0 to 7 |
| LittleEndian.U64RoundTrip | inetdiag/structs.go:196-199 | a number written as its eight bytes anywhere in a buffer is read back |
| LittleEndian.U32Reads | snapshot/snapshot.go:209-214 | a 32 bit read finds x if and only if its four bytes are there |
| LittleEndian.U32RoundTrip | snapshot/snapshot.go:209-214 | a number written as its four bytes anywhere in a buffer is read back |
| LittleEndian.U16IsValue | netlink/netlink_linux.go:42-44 | a 16 bit read, of the length and type of an attribute, is the little-endian number of the two bytes there |
| LittleEndian.U16Writes | netlink/netlink_linux.go:42-44 | the encoder of attribute headers writes the two low bytes of a number, lowest first |
| RouteAttr.ParseInvertsEncode | netlink/archival-record.go:52-64 | parsing the padded encoding of any attribute list gives back that list |
| RouteAttr.ParsedIsEncodable | netlink/archival-record.go:52-64 | every attribute that a parse returns, from any offset of any buffer, can be encoded |
| RouteAttr.ParsedAgain | netlink/archival-record.go:52-64 | encoding what was parsed of any buffer and parsing it again returns the same list |
| RouteAttr.ParseOutcome | netlink/archival-record.go:52-64 | a parse succeeds, fails or is sliced out of range if and only if the walk over the headers ends at the end, on a header of bad length, or past the end |
| RouteAttr.WalkDecides | netlink/archival-record.go:52-64 | any walk over good headers that reaches an end determines the outcome and, attribute by attribute, the result |
| RouteAttr.AlignedIsSafe | netlink/netlink_linux.go:37-48 | on a buffer of a multiple of 4 bytes the parse stays in bounds, and a successful one uses every byte |
| RouteAttr.UnalignedPanics | netlink/archival-record.go:61 | a concrete buffer of 5 bytes is sliced out of range |
| RouteAttr.ParseRouteAttr | netlink/archival-record.go:52-64 | the loop over the shrinking slice returns what the specification characterised above does, and terminates |
| InetDiag.SplitInetDiagMsg | inetdiag/structs.go:273-283 | there is a header exactly when the data has 72 bytes; it is the first 72 of them, and the attribute area is the rest |
| InetDiag.GetSockID | inetdiag/structs.go:148-164 | the cookie survives the conversion to int64 and back |
| InetDiag.Ip | inetdiag/structs.go:203-225 | an address is cut to 4 bytes exactly when the other 12 are zero, and is otherwise all 16 |
| InetDiag.Anonymize | inetdiag/structs.go:308-329 | succeeds exactly for headers of at least 72 bytes with family 2 or 10; for 10 all 16 bytes at 8 and at 24 become the output of the anonymizer on them, for 2 the first 4 of each, and no other byte changes |
| InetDiag.AnonymizeInPlace | inetdiag/structs.go:308-329 | the shared buffer ends up as that says, and is untouched on an error |
| InetDiag.AddressesDoNotMatter | inetdiag/structs.go:196-199 | cookie and state do not depend on address bytes |
| Snapshot.MasksAreExact | snapshot/snapshot.go:41-97 | NotFullyParsed is a subset of Observed; in tables of up to 257 slots bit t-1 of Observed is set exactly for the non-nil slots t in 1 to 32, and that of NotFullyParsed exactly for those not decoded in full |
| Snapshot.MasksAlias | snapshot/snapshot.go:92-96 | in a longer table slot 257 sets the bit of slot 1 |
| Snapshot.DecodedStatsAgree | snapshot/snapshot.go:113-124 | the decoded counters equal those of GetStats if and only if TCPInfo has at least 208 bytes or no byte that is there of the two counters is set |
| Snapshot.OldInfoDisagrees | netlink/archival-record.go:354-356 | a TCPInfo of 192 bytes with received bytes in it, which Decode shows and GetStats does not |
| Snapshot.MaskFits | snapshot/snapshot.go:92-96 | both masks fit 32 bits |
| Snapshot.DecodedFields | snapshot/snapshot.go:41-97 | every field is decoded from its own slot: the first byte of 5, 6, 8, 10 and 17, and the zero-padded or cut bytes of 1, 2, 3, 7, 9 and 16 in their sizes |
| Snapshot.DecodedMark | snapshot/snapshot.go:209-214 | the mark is the little-endian number in slot 15 if that has 4 bytes, and else 0 |
| Snapshot.DecodedCongestion | snapshot/snapshot.go:157-160 | the congestion algorithm is slot 4 without its last byte |
| Snapshot.DecodeOutcome | snapshot/snapshot.go:31-40 | an if-and-only-if for each failure: neither metadata nor header, a header under 72 bytes, an empty congestion attribute |
| Snapshot.ParsedInFullExact | snapshot/snapshot.go:47-96 | which attributes count as decoded in full, by type and length |
| Snapshot.MaybeCopy | snapshot/snapshot.go:113-124 | the view is the attribute's prefix padded with zeros to the struct size, and is flagged exactly when the attribute is longer |
| Snapshot.Decode | snapshot/snapshot.go:27-99 | the loop returns the masks and views that these lemmas are about, or the error of the source |
| EventServer.ClientsGetEveryEvent | eventsocket/server.go:59-112 | in every interleaving of events, joins, broadcasts and deferred removals, a client gets exactly the marshalable events broadcast since it joined, in order, up to its first failed write, not that one, then at most later ones, in order, and none from its removal on; a client with a failed write, and no other, is removed or waits for removal; the set of clients does not change during a broadcast |
| EventServer.EmitExact | eventsocket/server.go:187-194 | an event is accepted if and only if fewer than 100 are waiting |
| EventServer.EventIsDelivered | eventsocket/server.go:79-112 | for every client and every event that can be marshalled a run exists in which the event is accepted, taken, broadcast and received |
| EventServer.RunKeeps | eventsocket/server.go:59-112 | every step keeps the invariants of channel, client set and received lines |
| EventServer.Notifier.SendToAllListeners | eventsocket/server.go:79-94 | every client is written to once, in any order; those that refuse are noted for removal and no client is removed yet |
| EventServer.Notifier.AddClient | eventsocket/server.go:59-64 | joining is the model's join step |
| EventServer.Notifier.RemoveClient | eventsocket/server.go:66-77 | a deferred removal is the model's, also when the client is gone already |
| EventServer.Notifier.TakeEvent | eventsocket/server.go:96-112 | the head of the channel is taken, and handed on exactly when it is there and can be marshalled |
| EventServer.Notifier.SendEvent | eventsocket/server.go:168-184 | an event is appended to the channel, behind all that are waiting, exactly when there is room; otherwise the send goes on waiting and nothing changes |

## Left out

- zstd processes, directories, date paths and file names: opening a file is an oracle that succeeds or fails, and a writer is a list of lines with an open flag. The clock reading that Rotate makes for the date path is not modelled.
- JSON and CSV encoding: a line of a file is the record itself.
- Prometheus metrics other than the two rate histograms, logging, and float64 rounding of the observed values.
- The collector's netlink socket code, main.go and the command line tools.
- uuid strings, the inside of the anonymizer and the classification of IP addresses: oracles. The anonymizer is any length-preserving function.
- CycleCount and LogCacheStats, which only read counters.
- Listen, Serve, context cancellation and shutdown of the event socket.
- Readers of saved files (LoadAll, rawReader, archiveReader), Darwin variants, String methods and test helpers: they would only add easy members.
- A saver with zero marshallers: the model has at least one. With none, queue returns an error for every record and endConn divides by zero.
- The Inode, UID and Slice fields of a connection, which the saver never reads. The field created of a modelled connection is the first value of its expiration, kept for stating `Rotation.FilesAreNumberedAndPaced`.
- Connections are values in a map of the saver object, not objects of their own: the source holds the only reference to each in that map.
- Hosts with the highest byte first: where the source reads a number through an unsafe pointer, the model reads it with the lowest byte first.
- Sharing of message buffers between different records: only the sharing of one record between cache and marshaller is modelled, by the action Scrub.
- Archival.Compare: requires a TCPInfo slot that is present to have at least 168 bytes, because Go re-slices a shorter one into whatever lies behind it in the buffer, which is not part of the record.
- CompareAnswers.EarlyAnswers: requires the same of both records.
- CompareAnswers.TableAnswers: requires the same of both records.
- Cache.Cache.Update: requires the same of the record it stores, although the source's cache takes any record, because the record type shared by cache and saver is the domain of Compare.
- SaverObject.Saver.SwapAndQueueRecord: requires the same of its record.
- SaverObject.Saver.HandleType: requires that the records made of its messages have this, and that no attribute area is sliced out of range, at which point the source's process ends.
- SaverObject.Saver.HandleBlock: requires the same of the messages in its block.
- SaverObject.Saver.MessageSaverLoop: requires the same of the messages in all its blocks.
- Conservation.ConservationExact: requires distinct cookies per cycle, counters wherever HasDiagInfo says so, and no overflow; the condition for any records is in Masking.ObservedExact, and the identity without overflow bound in Accounting.BytesAreConserved.
- Conservation.NetFallsExactly: requires distinct cookies per cycle; the condition for any records is in Conservation.ExpectedFallsExactly.
- Conservation.DecreaseExact: requires distinct cookies per cycle and sums that fit 64 bits; the general statement without them is Conservation.WorkaroundExact.
