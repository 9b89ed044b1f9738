# Fyke, modelled and proved

Fyke is a honeypot: decoy services record what visitors do, each sensor queues
the records on disk, and a single controller stores them. This project models
the parts of that path where state, order and failure matter, and proves what
they promise over every input, every fault and every run.

Each module follows one component. Code that updates state in place is a class
or a method with loops, proved equal to a function of its old state; the
promises are lemmas about those functions.

| Module | Component |
|---|---|
| `Text`, `Tally`, `Model` | Go strings and formatting, sums over maps, the event and its normalisation |
| `Spool`, `SpoolLaws` | the bounded on-disk queue of a sensor |
| `EventStore`, `EventLaws` | the insert transaction with its evidence files |
| `Transport` | the controller's handling of one envelope and one stream |
| `Pipeline`, `PipelineOrder`, `PipelineSteps`, `Delivery`, `Replay`, `Health` | queue, replay loop, unreliable stream and table as one step system: safety, order, progress, the replay loop as code, and the controller's health events |
| `Snapshot` | export by paging below a high-water mark |
| `Retention` | age limits, the disk cap, eviction order |
| `ShellLex`, `ShellLexLaws`, `ShellReads`, `Paths` | the emulated shell's tokeniser and paths |
| `ShellModel`, `Shell` | its commands, pipelines and lists, as functions and as the object |
| `ShellLaws`, `ShellLines`, `ShellCommands`, `ShellRules`, `ShellRuns`, `ShellTotals` | what they keep and what they mean |
| `Uuid`, `Session`, `Template`, `Telnet`, `LineEditor`, `AuthGate`, `Broker`, `Limiter` | smaller stateful algorithms |
| `Deliveries`, `Outbox`, `Findings` | one webhook delivery, the outbox of all of them, and findings |

How the pipeline is modelled. `Pipeline.State` holds the sensor's disk, the
state of its connection, the controller's database and three logs. A step is a
Put (with any I/O fault), the death of the sensor process at any point, a
restart, a connect, the controller's opening of a stream, a break, a listing, a
send, the handling of an envelope by the controller (with any fault or death
inside the transaction), the receipt of an acknowledgement, a heartbeat, an
insert by another writer (the controller's own health events under this sensor's
name included), or the late handling of an envelope whose stream is already
gone. A controller death is a fault inside a handling step: nothing it
holds outlives the transaction except files. `Replay.Loop` gives the steps the
sensor's loop takes for a given script of network outcomes; `Replay.Client.RunOnce`
is the loop as the code has it, over the queue and server objects, and is proved
to take exactly these steps.

What is a parameter: clock readings, random bytes, generated IDs, which
statement or file operation fails, what the network loses, webhook answers,
the order of a directory listing or of equal rows, and the interleaving of
other actors. Sealing is a file that opens only with its own ID and adds 28
bytes. JSON coding is a pair of functions; what decoding gives back for an
encoded event is the catalogue entry of its ID, and it is only used that this
entry has the ID and the sensor and is normal.

Where the code differs from what its text says, the model follows the code:

- `internal/sensor/auth.go:28-29` calls the authentication window rolling. It
  is anchored at its first failure; `AuthGate.ThreeWithinTenPassIff` gives the
  exact condition and `AuthGate.WindowDoesNotRoll` an instance.
- Successive version 7 UUIDs are meant to increase. They do, except when a
  carry lands in the two masked variant bits or runs into the version
  (`Uuid.NextIncreasesIff`).
- A removed file is gone for `read` but still makes its directory exist for
  `isDir` and `list` (`ShellLaws.IsDirIff`).
- A pattern in the root directory is never replaced, because its directory is looked
  up as the empty path (`ShellRuns.RootPatternStays`).
- `exit` does not stop the rest of its own line (`ShellLaws.SequenceContinues`).
- Variables are expanded for the whole line before any of it runs: after
  `export A=1; echo $A` nothing was echoed (`ShellLines.ExportThenEcho`). A line
  `a;b` does what the lines a and b do if b's tokens do not depend on that
  (`ShellLines.OneLineOrTwo`).
- Deleting an event removes its evidence rows but not their files
  (`Retention.AgedStraysIff`).
- A failed age pass rolls its rows back after files may be gone already
  (`Retention.PruneFailureExample`). Every row still has its file exactly when
  nothing was due or a call up to the removal of the first file failed
  (`Retention.Store.PruneByAge`); a cap run leaves a row without its file exactly
  when deleting that row was what failed (`Retention.RowsHaveFilesIff`).
- A finding whose read-back or reservation fails is stored, but its alert is lost
  for good (`Findings.Store.RecordFinding`).
- A record inserted after the newest one was deleted reuses its rowid and can be
  exported in its place (`Snapshot.ReusedRowid`).
- One queued file that no longer opens makes every listing fail, so that nothing
  behind it is sent either (`SpoolLaws.ListFailsIff`).
- Two Puts of one ID within one nanosecond are counted twice until the queue is
  reopened (`SpoolLaws.SameNameCountsTwice`).
- An event whose (sensor, session, sequence) key another ID already holds is
  acknowledged and dropped with its evidence (`EventLaws.SharedKeyDropsEvent`).
- The one-hour ceiling of the webhook backoff never applies
  (`Deliveries.BackoffIsPow2`).

## Model

| member | source | states |
|---|---|---|
| `Pipeline.NoLoss` | internal/transport/client.go:68-115 | Over every run with lost acknowledgements, broken streams, sensor deaths, controller deaths and inserts by other writers: each event whose Put succeeded is still queued or is committed as decoded, with one row per evidence item, in order, that holds the item's kind, content type, last file name element, hash and size and the event's date, and that item's sealed bytes in the row's file; no event is committed twice, given one key per event ID |
| `Pipeline.NoSessionLosesEvents` | internal/sensor/sink.go:65-75 | The same without that hypothesis, when the events are those of sessions with distinct IDs |
| `Pipeline.PutIsLogged` | internal/transport/client.go:44-50 | A Put without a fault is logged and queued with the event's encoding exactly when it fits, and otherwise changes nothing |
| `Pipeline.SessionsGiveUniqueKeys` | internal/sensor/sink.go:65-75 | Events logged by sessions with distinct IDs have one key per event ID |
| `Health.HealthEventsAreASession` | internal/controller/alerts.go:329-346 | Over every run between the checks, the health events stored for a sensor have increasing numbers, so that they are one more session |
| `Health.HealthEventIsNew` | internal/controller/alerts.go:338 | No stored event holds the key of the next health event |
| `Pipeline.AcknowledgedIff` | internal/transport/server.go:60-78 | Without the key hypothesis: the event being acknowledged is committed exactly when no other ID in the table holds its key |
| `Pipeline.NextSafe` | internal/transport/client.go:68-115 | Each of the fifteen kinds of step keeps the pipeline's safety invariant |
| `Pipeline.RunSafe` | internal/transport/client.go:68-115 | So does every run |
| `Pipeline.HandleGenuine` | internal/transport/server.go:39-79 | Handling a queued record only grows the table, by at most that record's event, and accepts it only when it is covered |
| `PipelineOrder.CommitsFollowPuts` | internal/transport/client.go:78-113 | With increasing stamps and one Put per event, over every run: first commits are a prefix of the Puts in order, and the queue lists exactly the Puts after the acknowledged ones, in order |
| `Replay.EverythingIsDelivered` | internal/transport/client.go:51-115 | After every such run, wherever it stopped: recovering and then running the replay loop once, on a connection with at least as many fault-free exchanges as records wait, commits every event ever queued and empties the queue |
| `Replay.FaultFreeDelivers` | internal/transport/client.go:68-115 | The same from any state that keeps safety and order |
| `Replay.LoopAcknowledges` | internal/transport/client.go:78-115 | On such a connection the loop acknowledges everything that was queued when it started |
| `Replay.BatchIsSent` | internal/transport/client.go:90-113 | The loop takes the whole listed batch off the queue before it lists again |
| `Replay.LoopGoesOn` | internal/transport/client.go:78-115 | As long as nothing fails the loop lists, offers and beats without end: one record or heartbeat for every exchange there is, until it is cancelled |
| `Replay.OfferAckedIff` | internal/transport/client.go:96-113 | A record is acknowledged exactly when its acceptance under its own ID arrives and its file could be removed; the controller never answers under another ID |
| `Replay.BeatAckedIff` | internal/transport/client.go:117-133 | A heartbeat keeps the stream exactly when its reply arrives and the sensor's row could be touched |
| `Delivery.ListsBacklog` | internal/transport/client.go:78-82 | A listing on a fresh connection holds exactly the records that are not acknowledged |
| `Delivery.RoundMoves` | internal/transport/client.go:96-113 | One fault-free send, handling and receipt acknowledges and removes the oldest record |
| `Delivery.HandleAccepts` | internal/transport/server.go:60-75 | Without a fault the controller accepts every genuine record, new or repeated |
| `PipelineOrder.NextOrdered` | internal/transport/client.go:78-113 | Each step keeps that order, including late handling of envelopes from dead streams |
| `PipelineOrder.RunOrdered` | internal/transport/client.go:78-113 | So does every run |
| `PipelineOrder.HoldsAck` | internal/spool/spool.go:145-164 | Acknowledging the oldest record removes exactly that record from the queue |
| `Replay.Client.RunOnce` | internal/transport/client.go:68-115 | For every script of network outcomes the list, send, await, acknowledge loop takes exactly the steps of `Replay.Loop`, ends with its reason and ends disconnected; refused streams included |
| `Replay.Client.ListAndSend` | internal/transport/client.go:78-113 | One turn of the loop: a listing, then all its records or a heartbeat |
| `Replay.Client.OfferAll` | internal/transport/client.go:90-113 | One listing is offered in order until the first failure; each accepted exchange acknowledges its record, and the whole listing is acknowledged if none fails |
| `Replay.Client.Offer` | internal/transport/client.go:90-113 | One record: which steps it takes and how it ends, for each outcome of send, reply and removal; it leaves the queue exactly when a matching acceptance was received and its file could be removed |
| `Replay.Client.Beat` | internal/transport/client.go:117-133 | A heartbeat keeps the stream exactly when it is accepted under its own ID |
| `Replay.Client.Transmit` | internal/transport/server.go:39-79 | An envelope in flight is handled as one Deliver step |
| `Transport.AcceptedMeansTaken` | internal/transport/server.go:39-79 | An acknowledgement names its message; acceptance means right version and sensor, a valid event and an ID or key present in the table; refusal means tables unchanged and nothing published |
| `Transport.HeartbeatIsSeen` | internal/transport/server.go:52-59 | A heartbeat is accepted exactly when version, sensor, empty payload and the touch are right; then its sensor is seen now and healthy, and no other sensor, event, evidence row or file differs |
| `Transport.EventAcceptedIff` | internal/transport/server.go:60-75 | An event is accepted exactly when version and sensor are right, its payload decodes to an acceptable event of the sensor and the insert stored or knew it; only a death goes unanswered |
| `Transport.RefusalIsTrue` | internal/transport/server.go:48-70 | A refusal names a check that did fail |
| `Transport.StreamAnswers` | internal/transport/server.go:39-79 | Over a whole stream replies come in the order of the envelopes and under their IDs, stop only after the last one, a failed send or a death, and at the end every accepted event is in the table, which has lost none |
| `Transport.Server.HandleOne` | internal/transport/server.go:39-79 | One envelope: every check in order, the database after it and the reply; an accepted heartbeat marks this sensor seen now and healthy and changes nothing else, a refused one nothing at all |
| `Transport.Server.Open` | internal/transport/server.go:36-38 | Opening a stream marks the sensor seen now and healthy and changes nothing else; it is refused for reserved names |
| `Transport.TouchKeepsIndexed` | internal/store/store.go:404-412 | A heartbeat marks its sensor seen and healthy and moves no sequence number and no event |
| `Transport.Server.Stream` | internal/transport/server.go:31-80 | A stream opens and is then a fold of single envelopes that ends at a failed send or a death |
| `Spool.Spool.Open` | internal/spool/spool.go:36-79 | A limit below one mebibyte is refused, and any error of the directory or the key file ends in no queue; otherwise the queue counts the stored records |
| `Spool.Spool.constructor` | internal/spool/spool.go:68-78 | The counting loop finds the total size of the record files |
| `Spool.Spool.Put` | internal/spool/spool.go:80-106 | What each outcome and each fault leaves on disk and in the count |
| `Spool.Spool.List` | internal/spool/spool.go:107-144 | Records in name order, skipping foreign names, failing at the first damaged or unreadable one or with the directory |
| `Spool.ListReadingIff` | internal/spool/spool.go:107-144 | Whatever files cannot be read, a listing either fails or is the whole one; it fails exactly when a record file cannot be read or does not open |
| `Spool.Spool.ReadEntry` | internal/spool/spool.go:116-142 | One directory entry: skipped, kept or an error |
| `Spool.Spool.Ack` | internal/spool/spool.go:145-164 | The first record file whose name ends in the ID is removed and subtracted, or an error of the directory or the removal leaves the queue as it was |
| `Spool.NameRoundTrip` | internal/spool/spool.go:91-128 | List recovers from a file name the ID that Put wrote into it |
| `Spool.SuffixIsId` | internal/spool/spool.go:148-154 | Ack's suffix test accepts a record's name exactly when the record has that ID |
| `Spool.NameOrder` | internal/spool/spool.go:91-114 | Names sort by stamp, whatever the IDs |
| `SpoolLaws.RunKeepsAccounts` | internal/spool/spool.go:68-164 | Over any Put, Ack, List and reopen run without a reused name, the count is the total record size and never above the limit |
| `SpoolLaws.PutAccounting` | internal/spool/spool.go:80-106 | A stored Put keeps that accounting exactly when no non-empty record has its name already; it never exceeds the limit |
| `SpoolLaws.SameNameCountsTwice` | internal/spool/spool.go:91-100 | The run that breaks the accounting, and that reopening repairs it |
| `SpoolLaws.PutRefused` | internal/spool/spool.go:83-99 | A full queue changes nothing, exactly when the record would not fit; a failed Put changes no record |
| `SpoolLaws.AckAccounting` | internal/spool/spool.go:145-164 | Ack keeps the accounting |
| `SpoolLaws.AckRemoves` | internal/spool/spool.go:145-164 | Ack removes one file with the ID's suffix, or there is none |
| `SpoolLaws.AckContents` | internal/spool/spool.go:145-164 | Ack loses no record of any other ID and adds none |
| `SpoolLaws.PutContents` | internal/spool/spool.go:80-106 | A stored Put queues its record and loses none of another ID; a refused one adds none |
| `SpoolLaws.ListExact` | internal/spool/spool.go:107-144 | List succeeds on what Put wrote and returns exactly the queued records |
| `SpoolLaws.ListFailsIff` | internal/spool/spool.go:107-144 | List fails exactly when some record file with a readable ID no longer opens under it; one such file blocks the whole queue |
| `SpoolLaws.ListInPutOrder` | internal/spool/spool.go:107-144 | With increasing stamps List returns the queue in Put order |
| `EventStore.Store.Insert` | internal/store/store.go:120-204 | The transaction's result and the database after it, for every fault, including a death in the evidence loop |
| `EventStore.Store.WriteEvidence` | internal/store/store.go:161-194 | Rows, created paths and files of the evidence loop up to the point where it stops, between files or in the middle of one |
| `EventStore.Store.RemoveFiles` | internal/store/store.go:133-141 | The deferred cleanup removes exactly the created files |
| `EventStore.Undo` | internal/store/store.go:133-141 | Cleanup restores the files as they were, except for one partly written file |
| `EventLaws.InsertKeepsBacked` | internal/store/store.go:120-204 | Whatever fails in it, and even when the process dies, Insert leaves no evidence row without its event and its file |
| `EventLaws.InsertKeepsNoStrays` | internal/store/store.go:120-204 | A file is left without a row exactly after a partial write or a death inside the evidence loop |
| `EventLaws.InsertEvidence` | internal/store/store.go:142-194 | Evidence rows are written for a first commit only, one per item in order, each with the item's kind, content type, stored name, hash and size, the event's date and the path of its file; other events' rows are untouched |
| `EventLaws.RowRecords` | internal/store/store.go:182 | What a row says of its item and its event, field by field |
| `EventLaws.StoredNameIsLast` | internal/store/store.go:178-181 | The stored file name is the last run of bytes between slashes and backslashes of the submitted one |
| `EventLaws.InsertOutcome` | internal/store/store.go:120-204 | Duplicate, died, inserted and failed, each exactly when: a taken ID or key, a death in the evidence loop, neither of them nor a fault, anything else |
| `EventLaws.InsertMarksSensor` | internal/store/store.go:195 | A first commit sets its sensor's date, session and health, keeps the higher sequence number, indexes the event and leaves other sensors alone |
| `EventLaws.InsertHoldsEvidence` | internal/store/store.go:161-181 | After a first commit each evidence row's file holds the sealed bytes of its item |
| `EventLaws.InsertKeepsFiles` | internal/store/store.go:133-181 | Whatever fails, the contents of every existing file stay |
| `EventLaws.InsertEffect` | internal/store/store.go:142-151 | The table gains the event exactly when it is inserted, and a duplicate is one whose ID or key was taken |
| `EventLaws.InsertKeepsKeysUnique` | internal/store/store.go:91-93 | (sensor, session, sequence) stays unique |
| `EventLaws.InsertKeepsIndexed` | internal/store/store.go:152-198 | Every stored event is indexed, its sensor's row has reached its sequence number and never moves back, and other sensors' rows are untouched |
| `EventLaws.StoredIff` | internal/store/store.go:142-151 | After acceptance the event's own row is stored exactly when its ID held it already or was free with its key |
| `EventLaws.SharedKeyDropsEvent` | internal/store/store.go:142-151 | The accepted event that is not stored |
| `EventLaws.StoredNameHasNoPath` | internal/store/store.go:178-181 | Whatever file name a visitor submits, the stored one has no slash or backslash, unless it is the single slash |
| `Model.NormalizeOnce` | internal/model/event.go:49-78 | Normalising yields a complete event, and doing it again at the controller changes nothing |
| `Model.NormalizeFills` | internal/model/event.go:49-78 | Normalising succeeds exactly for a known schema, the four names and valid addresses; it fills in a missing ID, date and schema, lowers the protocol and changes nothing else |
| `Snapshot.ForEachSnapshot` | internal/store/reporting.go:14-74 | The visits are those of the page-by-page export, for every course of the table and of failures, each of them without an error. While rows up to the mark only disappear: visits are matching rows present at the start, strictly ascending; every matching row never deleted is visited; the count is the number of visits; it stops early only on an error |
| `Snapshot.ExportKeeps` | internal/store/reporting.go:25-72 | Every way the export can go on from a sound prefix keeps those promises |
| `Snapshot.PageStep` | internal/store/reporting.go:25-72 | Visiting any part of the next page keeps those promises |
| `Snapshot.PageComplete` | internal/store/reporting.go:26-50 | A page omits a matching row only because it was filled before reaching it |
| `Snapshot.PageSound` | internal/store/reporting.go:26-50 | A page is ascending, bounded and holds only matching rows of its range |
| `Snapshot.NoReuseIff` | internal/store/reporting.go:14-33 | The export's assumption holds for a run of deletions and inserts exactly when no insert happens while every row from the mark up is gone |
| `Snapshot.WorldShrinks` | internal/store/reporting.go:14-33 | A world driven by such runs is one the export can rely on |
| `Snapshot.ReusedRowid` | internal/store/reporting.go:14-33 | Deleting the newest row and inserting another makes the export visit the later event and not the earlier one |
| `Retention.Store.EnforceCap` | internal/store/retention.go:83-201 | However it ends, what was done is a run in which each removal found the database at the latest measurement and the files still there over the cap; evidence goes in order of (kind rank, age), events oldest first and only without evidence left; success means the latest measurement fits, failure on a small cap that nothing is left to delete |
| `Retention.RemovedOverCap` | internal/store/retention.go:115-200 | In such a run every single eviction and every batch of events happened over the cap; none happens once the measured use fits |
| `Retention.RunInOrder` | internal/store/retention.go:97-218 | Over every such run, whatever the database size does: evicted evidence goes before all that is left, deleted events are the oldest, and none is deleted while evidence is left |
| `Retention.RunTakesKinds` | internal/store/retention.go:95 | Over every such run captures go before uploads, these before request bodies, these before transcripts and these before everything else; within one kind, and among the others, the oldest first; events oldest first and only without evidence left |
| `Retention.RowsHaveFilesIff` | internal/store/retention.go:115-134 | After every such run, failed or not, a row is without its file exactly when its own eviction was cut short between file and row |
| `Retention.Store.Shrink` | internal/store/retention.go:93-200 | Evidence first, compaction only if something was evicted, then events |
| `Retention.Store.EvictAll` | internal/store/retention.go:114-142 | The outer loop: passes and new measurements until the use fits or evidence is exhausted, each eviction over the cap at the time; it ends because each pass removes a row |
| `Retention.Store.EvictPass` | internal/store/retention.go:115-134 | One pass evicts in order, each time while the latest measurement and the files still there exceed the cap, and stops once they fit or no evidence is left |
| `Retention.Store.Evict` | internal/store/retention.go:116-133 | One row: its file, its row and the bytes subtracted; on an error the rows are as before, and the file is gone exactly when only the last of the three calls failed |
| `Retention.Store.DeleteEvents` | internal/store/retention.go:159-200 | Batches of oldest events, each deleted while the latest measurement exceeds the cap, until it fits or none is left |
| `Retention.Store.DropBatch` | internal/store/retention.go:160-199 | One batch of at most 500 events with its compaction and new measurement |
| `Retention.Store.OldestEventIDs` | internal/store/retention.go:203-218 | Up to 500 events, none younger than one left out |
| `Retention.OldestJoin` | internal/store/retention.go:159-200 | The oldest of what is left after deleting the oldest are still the oldest |
| `Retention.HeadGoesFirst` | internal/store/retention.go:97-115 | With a prefix of the query's rows gone, the next one goes before all that are left |
| `Retention.Store.Prune` | internal/store/retention.go:21-82 | Age limits and then the cap: what the first removed, and that the rest is a run of allowed removals, also when it fails |
| `Retention.Store.PruneByAge` | internal/store/retention.go:21-80 | Success removes exactly the expired rows, their files and the old events; failure restores the rows, and then every row still has its file exactly when nothing was due or a call up to the removal of the first file failed: begin, the queries up to the first kind with rows, the stat and the removal |
| `Retention.PruneFailureExample` | internal/store/retention.go:35-68 | From a store with one expired capture and its file: when only the deletion of its row fails, the age pass fails with the row present and its file gone |
| `Retention.PassNext` | internal/store/retention.go:31-69 | Each kind's pass finds exactly its own due rows, whatever earlier passes removed |
| `Retention.Store.PruneKind` | internal/store/retention.go:35-68 | One kind's pass: the files of the due rows go at once, their rows with the commit, each counted once; on failure some files, none only if none was due or the query or the first row's stat or removal failed |
| `Retention.Store.AgePasses` | internal/store/retention.go:31-69 | The four passes together remove exactly the rows due at the start, and their files, in any tables |
| `Retention.WithoutExpired` | internal/store/retention.go:69-75 | With the event deletion they amount to one simultaneous rule |
| `Retention.AgedKeeps` | internal/store/retention.go:21-75 | What ageing keeps: captures, payloads, transcripts and events by their own numbers of days, and other evidence as long as its event |
| `Retention.AgedStraysIff` | internal/store/retention.go:69-75 | Ageing leaves no file behind exactly when all evidence of each deleted event had itself expired |
| `Retention.PasswordFileStays` | internal/store/retention.go:30-75 | A password's file always outlives its event |
| `ShellLex.Lex` | internal/emulator/shell.go:132-216 | The index loop equals the recursive tokeniser; it stays in bounds and makes progress on every input |
| `ShellLexLaws.TokensWellFormed` | internal/emulator/shell.go:132-216 | On every input operators are among the seven and words are not empty |
| `ShellLexLaws.ValuesAreNotSyntax` | internal/emulator/shell.go:132-241 | No value of any variable adds, removes or changes an operator or an error |
| `ShellLexLaws.QuotingRoundTrip` | internal/emulator/shell.go:132-216 | Single-quoted words, joined by spaces, come back as exactly those words if and only if each is non-empty, ASCII and free of backtick, command substitution and line ends |
| `ShellLexLaws.QuoteAllForbidden` | internal/emulator/shell.go:133-136 | Quoting hides no forbidden text and introduces none |
| `ShellLexLaws.LexQuoteAll` | internal/emulator/shell.go:132-216 | What quoted words of any bytes are read as |
| `ShellReads.OperatorReads` | internal/emulator/shell.go:193-208 | Anywhere outside quotes a single semicolon, pipe, `<` or `>`, and a doubled pipe, `&` or `>`, ends the word before it and comes out as it is |
| `ShellReads.ByteReads` | internal/emulator/shell.go:177-210 | Outside quotes white space ends words and every byte without a meaning belongs to one |
| `ShellReads.RuneReads` | internal/emulator/shell.go:147-149 | A byte from 128 on is written as the UTF-8 of the code point with its number |
| `ShellReads.LettersAre` | internal/emulator/shell.go:233-236 | The letters of unbraced names are those of ASCII and Latin-1 |
| `ShellReads.BackslashReads` | internal/emulator/shell.go:148-156 | A backslash makes the next byte literal, except inside single quotes |
| `ShellReads.DoubleQuotesRead` | internal/emulator/shell.go:157-175 | Any bytes come back from inside double quotes if quote, backslash and dollar have a backslash before them |
| `ShellReads.ForbiddenIff` | internal/emulator/shell.go:133-136 | A line is refused at once exactly for a backquote, a line end or `$(`, quoted or not |
| `ShellReads.RefusalReads` | internal/emulator/shell.go:190-216 | Parentheses and braces, a single `&` and a line that ends quoted or escaped are refused, each for its own reason |
| `ShellReads.VariableExpands` | internal/emulator/shell.go:218-241 | `$name` up to the first byte that cannot belong to it, `${name}` and `$?` stand for the variable's value, empty if unset, and the last status |
| `ShellReads.NoReference` | internal/emulator/shell.go:218-253 | A dollar sign before anything else, braces that do not close and braces around no name are no reference |
| `ShellReads.ReferenceReads` | internal/emulator/shell.go:162-189 | In a word and in double quotes a reference becomes its value, in single quotes it stays; a dollar sign that is no reference is an error in a word and literal in double quotes |
| `Paths.CleanNormal` | internal/emulator/shell.go:703-714 | path.Clean makes every absolute path normal |
| `Paths.CleanFixed` | internal/emulator/shell.go:703-714 | It leaves an absolute path alone exactly when it is normal |
| `Paths.CleanSteps` | internal/emulator/shell.go:703-714 | From a normal directory, cleaning a plain element leads to it, `..` after it leads back, and `.`, a second slash and a trailing one stay |
| `Paths.CleanFront` | internal/emulator/shell.go:703-714 | Cleaning the front of an absolute path first changes nothing |
| `Paths.CleanRelative` | internal/emulator/shell.go:703-714 | A relative path and its cleaned form lead from every directory to the same place |
| `Paths.RootHasNoParent` | internal/emulator/shell.go:703-714 | `/..` is the root |
| `Paths.ResolveParent` | internal/emulator/shell.go:703-714 | `..` is the parent of a normal working directory, or the root's own self, and `.` the directory itself |
| `Paths.ResolveChild` | internal/emulator/shell.go:703-714 | A plain name is that name below the working directory |
| `Paths.ResolveHome` | internal/emulator/shell.go:703-708 | `~` is the home directory, and a name after `~/` is below it |
| `Paths.ResolveAbsolute` | internal/emulator/shell.go:709-713 | An absolute path is itself, cleaned, from everywhere |
| `Paths.ResolveRooted` | internal/emulator/shell.go:703-714 | Every resolved path is absolute, and normal unless it is the bare home directory |
| `Paths.ResolveNormalIff` | internal/emulator/shell.go:703-714 | Every resolved path is normal exactly when the home directory is |
| `Paths.HomeNormalIff` | internal/emulator/shell.go:47-51 | The default home directory of a login name is normal exactly when every part of the name is a plain path element |
| `ShellLaws.SessionSane` | internal/emulator/shell.go:106-125 | Over every session, reading through overlay, tombstones and persona agrees with one plain map updated by the same writes, and the working directory stays absolute and normal |
| `ShellLaws.CommandSane` | internal/emulator/shell.go:384-547 | Each command keeps that |
| `ShellLaws.IsDirIff` | internal/emulator/shell.go:725-741 | isDir agrees with the readable files exactly when some file below is readable or none below was removed |
| `ShellLaws.RemovedFileKeepsDirectory` | internal/emulator/shell.go:725-741 | The directory that outlives its only file |
| `ShellLaws.EvalIsAndOr` | internal/emulator/shell.go:255-286 | The evaluation loop computes the meaning of the left-associative AND-OR parse, where skipped pipelines keep the last status, on every token list (POSIX.1-2017 Shell Command Language, section 2.9.3) |
| `ShellLaws.SequenceContinues` | internal/emulator/shell.go:255-286 | `a ; rest` runs the rest from the state that a left, whatever its status and even after `exit`, and merges the two results |
| `ShellLines.OneLineOrTwo` | internal/emulator/shell.go:106-125 | For lines a and b that lex on their own, `a;b` has the state, output and status of running a and then b, if b has the same tokens before and after a |
| `ShellLines.RunPair` | internal/emulator/shell.go:106-125 | In every case `a;b` runs the tokens that b has before a runs, in the state that a leaves |
| `ShellLines.ExportThenEcho` | internal/emulator/shell.go:106-125 | `export A=1; echo $A` echoes an empty line, and `echo $A` on the next line echoes 1 |
| `ShellLines.LexPair` | internal/emulator/shell.go:132-216 | `a;b` lexes to the tokens of a, the semicolon and the tokens of b |
| `ShellLines.EvalConcat` | internal/emulator/shell.go:255-286 | The tokens after a semicolon are evaluated in the state, and merged with the result, of those before it, whatever operator these end with |
| `ShellLines.EvalAt` | internal/emulator/shell.go:255-286 | Evaluation neither reads nor changes the last status; only `$?` in the text does |
| `ShellLaws.PipelineFeeds` | internal/emulator/shell.go:288-338 | A pipeline is its first stage followed by the rest fed with the first stage's LF-normalised output |
| `ShellLaws.PipeAccumulates` | internal/emulator/shell.go:288-338 | What earlier stages contribute to the result, and that a bad stage discards it |
| `ShellLaws.LfOfCrlf` | internal/emulator/shell.go:800-802 | Turning LF into CRLF and back gives exactly the text, its own carriage returns included |
| `ShellLaws.CatCopiesIff` | internal/emulator/shell.go:297-319 | `cat a > b` makes b read back as a exactly when a's lines end in LF, the last one included |
| `ShellCommands.CdMoves` | internal/emulator/shell.go:428-437 | `cd x` enters the directory x of the working directory, `cd ..` returns to it and `cd` goes home, with $PWD; where there is no directory nothing changes and the status is 1 |
| `ShellCommands.EchoPrints` | internal/emulator/shell.go:469-470 | echo prints its words and changes nothing |
| `ShellCommands.PwdPrints` | internal/emulator/shell.go:406-407 | pwd prints the working directory and changes nothing |
| `ShellCommands.JoinSplits` | internal/emulator/shell.go:388 | Splitting the joined words at their separator gives the words back |
| `ShellCommands.ExitEnds` | internal/emulator/shell.go:404-405 | exit and logout end the session, with status 0 |
| `ShellCommands.WritingCommands` | internal/emulator/shell.go:455-468 | After touch each operand reads as empty, after rm as missing, after mkdir there is an empty entry for it; every other path reads as before, and directory, variables and status stay |
| `ShellCommands.ExportSets` | internal/emulator/shell.go:482-488 | `name=value` sets the name to all that follows the first equals sign; without an equals sign or a name nothing is set |
| `ShellCommands.ExportRuns` | internal/emulator/shell.go:482-488 | export changes the variables alone |
| `ShellCommands.UnsetRuns` | internal/emulator/shell.go:489-492 | unset removes exactly the names given, and nothing else changes |
| `ShellRules.FirstRuleIff` | internal/emulator/shell.go:389-402 | The first matching rule of the persona answers, and a built-in command only if none matches |
| `ShellRules.FitsIff` | internal/emulator/shell.go:549-571 | A rule matches exactly by command, whole arguments, leading arguments and text in them; comparing joined arguments confuses no arguments and one empty argument |
| `ShellRules.RuleLeaves` | internal/emulator/shell.go:393-400 | Files a rule removes are gone even if it sets them, other files it sets read as set, the rest stays |
| `ShellRules.RuleAnswers` | internal/emulator/shell.go:389-402 | A rule's text, status, observation and delay are the result's; directory and variables stay |
| `ShellRules.FetchMeans` | internal/emulator/shell.go:573-607 | All URLs are recorded and the last decides: without a rule or with one that fails nothing is saved and the status is 6 or the rule's; a success is printed, or reads back from the file it names |
| `ShellRules.CurlDownloads` | internal/emulator/shell.go:527-528 | curl is such a download |
| `ShellRules.WgetDownloads` | internal/emulator/shell.go:527-528 | So is wget |
| `ShellRules.CatStatusIff` | internal/emulator/shell.go:609-627 | Reading fails with status 1 exactly when some file is unreadable, and what it prints ends its last line |
| `ShellRules.CatRuns` | internal/emulator/shell.go:609-627 | cat changes nothing and prints its operands' files, or what it is fed if it has none |
| `ShellRules.HeadRuns` | internal/emulator/shell.go:453-454 | head prints whole files, as cat does |
| `ShellRules.TailRuns` | internal/emulator/shell.go:453-454 | So does tail |
| `ShellRuns.OutputGoesTo` | internal/emulator/shell.go:309-319 | `>` leaves the output with LF line ends as the whole file, `>>` adds it to what the file reads as after the command; nothing is printed and no other file differs |
| `ShellRuns.InputComesFrom` | internal/emulator/shell.go:301-307 | `<` feeds the file, and if it is unreadable nothing runs and the status is 1 |
| `ShellRuns.LastTargetWins` | internal/emulator/shell.go:340-360 | Of two redirections of one kind the second holds, and only its target is written |
| `ShellRuns.TargetMissing` | internal/emulator/shell.go:346-348 | A redirection without a target runs nothing and ends with status 2 |
| `ShellRuns.EchoToFile` | internal/emulator/shell.go:309-319 | `echo words > file` leaves the words as the file's one line |
| `ShellRuns.GlobIs` | internal/emulator/shell.go:362-382 | A pattern becomes exactly the matching names of its directory, in order, or itself if none matches |
| `ShellRuns.ListingOf` | internal/emulator/shell.go:725-765 | A normal directory exists if it is the root or has something below it, and lists exactly what is there |
| `ShellRuns.RootPatternStays` | internal/emulator/shell.go:362-382 | A pattern in the root directory stays itself, whatever files there are |
| `ShellTotals.ListReports` | internal/emulator/shell.go:255-286 | A list prints what the pipelines that ran print, in order; it asks for the end if any does, adds up URLs and delays, shows the last gap and observation reported and ends with the last status |
| `ShellTotals.PipelineReports` | internal/emulator/shell.go:288-338 | A pipeline without a bad redirection prints what its last stage prints and reports what all stages report in the same way |
| `ShellTotals.StatusIsLast` | internal/emulator/shell.go:106-125 | Whatever the line, `$?` on the next one is the status it ended with |
| `ShellTotals.BlankLine` | internal/emulator/shell.go:109-112 | A blank line changes and prints nothing |
| `ShellTotals.RejectedLine` | internal/emulator/shell.go:113-118 | A line that does not lex only sets the status to 2, with its error's message |
| `ShellTotals.TrimIs` | internal/emulator/shell.go:109 | A line loses all white space at its ends and nothing else |
| `Shell.Shell.Run` | internal/emulator/shell.go:106-125 | One line: state and result, errors of the tokeniser included, as `RunLine` says; the laws about that function follow below |
| `Shell.Shell.Eval` | internal/emulator/shell.go:255-286 | The loop over list segments |
| `Shell.Shell.RunPipeline` | internal/emulator/shell.go:288-338 | The loop over stages |
| `Shell.Shell.RunStage` | internal/emulator/shell.go:297-325 | One stage with its input and output redirection |
| `Shell.Shell.ParseArgs` | internal/emulator/shell.go:340-360 | Words and redirections; the last redirection of each kind wins |
| `Shell.Shell.Expand` | internal/emulator/shell.go:362-382 | Pattern words become the matching names, or themselves |
| `Shell.Shell.Exec` | internal/emulator/shell.go:384-547 | One command: what it changes and what it prints |
| `Shell.Shell.ReadFiles` | internal/emulator/shell.go:609-627 | cat, head and tail: each operand's file with its last line ended, errors for missing ones, or the text fed |
| `Shell.Shell.Fetch` | internal/emulator/shell.go:573-607 | curl and wget against the persona's network rules |
| `Shell.Shell.WriteOperands` | internal/emulator/shell.go:455-468 | touch, mkdir and rm, one overlay write per operand |
| `Shell.Shell.ApplyRule` | internal/emulator/shell.go:389-402 | A persona rule sets its files and then removes its files |
| `Shell.Shell.SetVariables` | internal/emulator/shell.go:482-488 | export sets the valid names among its operands |
| `Shell.Shell.UnsetVariables` | internal/emulator/shell.go:489-492 | unset forgets its operands |
| `Shell.Shell.List` | internal/emulator/shell.go:742-765 | The sorted names just below a directory, removed persona files included |
| `Uuid.NextIncreasesIff` | internal/model/event.go:84-114 | The next ID is greater as a string exactly when the clock moved on or the counter's carry does not land in the variant bits or the version |
| `Uuid.IdsIncrease` | internal/model/event.go:84-114 | Over any calls, with the clock repeating or going back, IDs increase strictly unless a counter was stuck |
| `Uuid.StuckExample` | internal/model/event.go:95-111 | Two calls in one millisecond whose second ID is smaller |
| `Uuid.VersionAndVariant` | internal/model/event.go:104-113 | Every result has version 7, the RFC variant and dashes in place (RFC 9562, sections 5.7 and 6.2) |
| `Uuid.IdReadsBack` | internal/model/event.go:101-113 | The hex digits of an ID read back as its millisecond and all of the counter but the six bits of version and variant |
| `Uuid.IncrementValue` | internal/model/event.go:95-100 | The carry adds one to the 80-bit number, modulo its range |
| `Uuid.FormatOrder` | internal/model/event.go:112-113 | Printing keeps the order of the bytes |
| `Uuid.Generator.Carry` | internal/model/event.go:95-100 | The in-place carry loop computes that increment |
| `Uuid.Generator.NewUUIDv7` | internal/model/event.go:84-114 | On a later millisecond the clock and the fresh randomness; otherwise the old millisecond and the counter plus one modulo its range |
| `Session.KeysUnique` | internal/sensor/sink.go:65-75 | Events of sessions with distinct IDs never share a key, nor does a session repeat one |
| `Session.Session.Emit` | internal/sensor/sink.go:65-75 | Each emitted event is dated now, carries the next 64-bit number, used up also by a failure, and this session's names; kind, outcome, attributes, addresses and evidence are the draft's and the protocol is the draft's in lower case |
| `Session.Session.Transcript` | internal/sensor/sink.go:76-88 | What is kept of one chunk |
| `Session.TranscriptIsPrefix` | internal/sensor/sink.go:76-88 | All kept chunks together are exactly the first bytes offered, up to the limit |
| `Limiter.Limiter.Acquire` | internal/sensor/sink.go:99-109 | A session is admitted exactly when neither limit is reached by live sessions; the counters stay equal to the live sessions, with no zero entry |
| `Limiter.Limiter.Release` | internal/sensor/sink.go:111-121 | Only the first release of a session counts |
| `Limiter.AgreesRelease` | internal/sensor/sink.go:112-120 | Releasing lowers one source's count and the sum by one and drops a zero entry |
| `Limiter.Released` | internal/sensor/sink.go:112-120 | Releasing a live session takes one off the global and its own source's live sessions |
| `AuthGate.AcceptedIff` | internal/sensor/auth.go:30-47 | In any history an attempt passes exactly when it has honey credentials or is the third since its own key's window was opened |
| `AuthGate.KeysAreIndependent` | internal/sensor/auth.go:35-45 | A key's window depends on that key's own attempts only |
| `AuthGate.WindowIsOpener` | internal/sensor/auth.go:37-45 | The stored count is the distance from the attempt that opened the window |
| `AuthGate.PassesOnlyOnThird` | internal/sensor/auth.go:28-47 | A pass without honey credentials is the third consecutive failure of its key within ten minutes |
| `AuthGate.ThreeWithinTenPassIff` | internal/sensor/auth.go:37-39 | Three failures within ten minutes pass exactly when the first of them found no open window |
| `AuthGate.WindowDoesNotRoll` | internal/sensor/auth.go:28-39 | Failures at minutes 0, 9, 11 and 12 all fail |
| `AuthGate.Gate.Accept` | internal/sensor/auth.go:30-47 | The verdict for the attempt, other keys untouched, stored counts always one or two |
| `Broker.ReceivedInOrder` | internal/controller/broker.go:16-34 | What a subscriber has and can still take is what was published without what was dropped, in order; nothing is counted twice |
| `Broker.Channel.Publish` | internal/controller/broker.go:20-33 | One message to one subscriber, with the consumer draining before each select: the channel afterwards, exactly |
| `Broker.OfferDropsOldest` | internal/controller/broker.go:20-33 | The newest message is always enqueued, the consumer gets no more than it takes, and at most one message is lost: the oldest still buffered, and only from a full buffer |
| `Broker.Channel.DropOldest` | internal/controller/broker.go:24-27 | Only the oldest buffered message is dropped |
| `Broker.WithoutSize` | internal/controller/broker.go:16-34 | Received and dropped messages add up |
| `Broker.Broker.Publish` | internal/controller/broker.go:16-34 | Every subscription is offered the message once, to exactly that effect |
| `Broker.Broker.Subscribe` | internal/controller/broker.go:35-42 | A new channel under a new ID |
| `Broker.Broker.Unsubscribe` | internal/controller/broker.go:43-50 | The channel is closed once and never offered to again; its buffer can still be drained |
| `Template.RenderIsSimultaneous` | internal/protocol/httpdecoy/http.go:319-343 | With brace-free literals, keys and escaped values, every order of the replacement passes equals one simultaneous substitution |
| `Template.ReplaceFills` | internal/protocol/httpdecoy/http.go:339-341 | One pass fills one key's placeholders and touches nothing else |
| `Template.OrderMattersIff` | internal/protocol/httpdecoy/http.go:339-341 | With two values the page of one placeholder depends on the order exactly when its value contains the other placeholder and that placeholder's value is not itself |
| `Template.Render` | internal/protocol/httpdecoy/http.go:338-343 | The loop is the passes in the order the map yields |
| `Telnet.LineRoundTrip` | internal/protocol/telnet/telnet.go:141-188 | Data with doubled 255 bytes, any interleaved commands and subnegotiations and CR LF comes back as the payload with the rest unread exactly when payload plus one is below the limit (RFC 854, RFC 855) |
| `Telnet.LineWithoutCR` | internal/protocol/telnet/telnet.go:180-182 | A payload ended by LF alone comes back as it is |
| `Telnet.ProtocolBytes` | internal/protocol/telnet/telnet.go:147-185 | By number: 255 255 is one data byte, 0 is dropped, 255 with 251 to 254 takes an option, 255 250 runs to 255 240, other commands are two bytes |
| `Telnet.LineNeedsLF` | internal/protocol/telnet/telnet.go:141-188 | From any bytes, a line is returned only at a line feed, and what is left is the rest of the input |
| `Telnet.ReadItems` | internal/protocol/telnet/telnet.go:141-188 | The same from any partly read line |
| `Telnet.LinesAreBounded` | internal/protocol/telnet/telnet.go:141-188 | From any bytes, every returned line is shorter than the limit |
| `Telnet.SkipEncoded` | internal/protocol/telnet/telnet.go:157-172 | A subnegotiation with any body is skipped to its own end |
| `Telnet.Reader.Line` | internal/protocol/telnet/telnet.go:141-188 | The byte loop equals the recursive reader, and consumes what it says |
| `Telnet.Reader.Subnegotiation` | internal/protocol/telnet/telnet.go:158-172 | The inner loop skips up to and including its own IAC SE, or to the end of input |
| `LineEditor.Session` | internal/protocol/sshdecoy/ssh.go:185-316 | Over every key sequence the buffer-and-cursor editor is the two-sequence zipper, with cursor and history index in range, up to the first key that ends the session: Ctrl-D on an empty line, or an Enter whose command ends it |
| `LineEditor.Terminal.Feed` | internal/protocol/sshdecoy/ssh.go:199-315 | Each key does to the buffer and cursor what it means for the zipper |
| `LineEditor.Terminal.Submit` | internal/protocol/sshdecoy/ssh.go:204-215 | Enter remembers a line that is not blank and clears the buffer |
| `LineEditor.Terminal.DeleteWord` | internal/protocol/sshdecoy/ssh.go:240-249 | The two loops of Ctrl-W remove trailing spaces and the word before them |
| `LineEditor.Terminal.CompleteWord` | internal/protocol/sshdecoy/ssh.go:250-262 | Tab replaces the word before the cursor |
| `LineEditor.Terminal.Arrow` | internal/protocol/sshdecoy/ssh.go:271-299 | History and cursor movement |
| `LineEditor.Terminal.Insert` | internal/protocol/sshdecoy/ssh.go:306-313 | A typed byte goes in at the cursor while the line is below its limit |
| `LineEditor.TypingEdits` | internal/protocol/sshdecoy/ssh.go:300-313 | In terms of line and cursor: below 16384 bytes a byte goes in at the cursor, and erase takes the one before it |
| `LineEditor.CtrlWEdits` | internal/protocol/sshdecoy/ssh.go:240-249 | Ctrl-W removes the spaces before the cursor and the whole word before them, and nothing else |
| `LineEditor.TabEdits` | internal/protocol/sshdecoy/ssh.go:250-262 | Tab puts the shell's completion in place of the word before the cursor, and the cursor after it |
| `LineEditor.LineKeys` | internal/protocol/sshdecoy/ssh.go:204-239 | Enter, Ctrl-C and Ctrl-U clear the line; Ctrl-D and unknown sequences leave it |
| `LineEditor.HistoryKeys` | internal/protocol/sshdecoy/ssh.go:271-288 | Up and down show the entry before and after in the history, and an empty line after the newest |
| `LineEditor.CursorKeys` | internal/protocol/sshdecoy/ssh.go:289-299 | Right and left move the cursor by one within the line |
| `LineEditor.HistoryIsLastLines` | internal/protocol/sshdecoy/ssh.go:204-215 | Over every key sequence the history is exactly the last hundred lines that were not blank |
| `LineEditor.EditsUndo` | internal/protocol/sshdecoy/ssh.go:289-313 | Erase undoes a typed byte; right undoes left and left undoes right |
| `LineEditor.BrowsingIff` | internal/protocol/sshdecoy/ssh.go:271-288 | Going up and down the history returns to the fresh line exactly when nothing had been typed on it |
| `Outbox.Outbox.DeliverDue` | internal/controller/alerts.go:255-269 | For any clock and any answers it ends, in exactly the state that reading the clock, selecting a batch and requesting it, again and again, leads to; at its last clock reading nothing is due; every request was for a delivery due at the reading that selected it; a delivery is delivered exactly when a request made for it was accepted; unless the clock went back, all that was due at first got a request |
| `Outbox.BackoffIsKept` | internal/controller/alerts.go:255-302 | In every state of the outbox the requests made for a delivery, as numbered over all deliveries and timed by the clock, keep that spacing, and the first was not selected before the delivery was queued for |
| `Outbox.DrainEnds` | internal/controller/alerts.go:255-269 | From any state the batches end with nothing due, and nothing but requests selected since happened |
| `Outbox.DueIsRequested` | internal/controller/alerts.go:255-269 | A delivery due at the first reading gets a request if the last reading is not before the first |
| `Outbox.DeliveredIff` | internal/controller/alerts.go:255-302 | After every history of enqueues, requests and retries: delivered exactly when some request for the row was accepted |
| `Outbox.Outbox.DeliverBatch` | internal/controller/alerts.go:265-267 | One batch: one request per item, in order, each answer and clock reading deciding its own row |
| `Outbox.Outbox.DeliverOne` | internal/controller/alerts.go:271-302 | One request: the clock is read for its timestamp, and once more after a refusal, from which the wait counts; the row, its history and the readings afterwards |
| `Outbox.Outbox.DueDeliveries` | internal/store/investigation.go:445-460 | At most twenty due rows by due time and then ID, none after one left out, none only if none is due |
| `Outbox.Outbox.Enqueue` | internal/store/investigation.go:425-443 | All endpoints of an alert in one transaction, due at one clock reading: all rows, or on any error none; no other row changes |
| `Outbox.EveryEndpointHasARow` | internal/store/investigation.go:425-443 | After it every endpoint has a row for the alert, new rows are pending, unattempted and due at once, and rows that existed are as they were |
| `Outbox.Outbox.EnqueueOne` | internal/store/investigation.go:438 | One row per alert and endpoint; a second one is ignored |
| `Outbox.Outbox.RetryNow` | internal/store/investigation.go:484-495 | Only a failed delivery becomes pending again, due at the clock reading of the retry |
| `Deliveries.AttemptKeepsRow` | internal/controller/alerts.go:271-302 | A delivery is delivered exactly by an accepted request and fails exactly at its eighth failure or at the next failure after a manual retry |
| `Deliveries.RetryKeepsRow` | internal/store/investigation.go:484-495 | A manual retry keeps attempts and outcomes |
| `Outbox.AttemptDecreases` | internal/controller/alerts.go:255-302 | Every request lowers the sum of max(1, 8 - attempts) over live deliveries |
| `Deliveries.DueAfterBackoff` | internal/controller/alerts.go:293-301 | After a failed attempt a delivery is due again exactly when attempts remain and the doubled wait has passed |
| `Deliveries.WaitsAre` | internal/controller/alerts.go:293-301 | The waits after the first to seventh failure are 2, 4, 8, 16, 32, 64 and 128 seconds, and the eighth is final |
| `Deliveries.BackoffIsPow2` | internal/controller/alerts.go:293-298 | Waits double up to 1024 seconds |
| `Deliveries.RequestsAreSpaced` | internal/controller/alerts.go:255-302 | Over every history of requests and manual retries of a delivery: after its k-th refusal the next request was selected at least 2 to the k seconds later while k is below eight, and from the eighth on each further request takes a manual retry |
| `Findings.ReplayIsQuiet` | internal/store/investigation.go:200-244 | Once an event was recorded for a rule and fingerprint, recording it again after any run that keeps the event changes no count, status, link or alert time |
| `Findings.CountIsLinksPlusCascades` | internal/store/investigation.go:222-238 | In every run a finding's count exceeds its links by exactly the links that event deletion cascaded away |
| `Findings.CountIsExactIff` | internal/store/investigation.go:222-238 | From an empty database the count is the number of linked events exactly when no link of the finding was cascaded away |
| `Findings.FindingIsItsSightings` | internal/store/investigation.go:200-244 | Over every run a finding was first seen at its first sighting, last seen at its latest one, and shows the details of its last one; without a sighting there is no finding |
| `Findings.StepSurplus` | internal/store/investigation.go:222-238 | One step's part of that |
| `Findings.StepValid` | internal/store/store.go:102-104 | One finding per rule and fingerprint; every link has its finding and its event |
| `Findings.NewLinkReopens` | internal/store/investigation.go:235-238 | After an upsert a finding is resolved exactly when it was resolved and the event was linked already |
| `Findings.UpsertWrites` | internal/store/investigation.go:200-241 | What an upsert writes, field by field, for a new finding and one that was there: the input's details, dates and link, a count that grows with a new link, and a status changed only from resolved to open |
| `Findings.OperatorWrites` | internal/store/investigation.go:325-352 | A status change and an alert's reservation each write their own field and its date, the reservation exactly when no alert was within the cooldown |
| `Findings.RunKeepsLink` | internal/store/investigation.go:222-238 | Only deleting the event removes a link |
| `Findings.AlertsAreSpaced` | internal/store/investigation.go:341-352 | Successive alerts of one finding are a cooldown apart, whatever runs between them |
| `Findings.Store.UpsertFinding` | internal/store/investigation.go:200-244 | The transaction: when it errs, before or after the commit, which row it writes, and whether anything changed |
| `Findings.Store.UpdateStatus` | internal/store/investigation.go:325-339 | An operator's status change |
| `Findings.Store.ReserveAlert` | internal/store/investigation.go:341-352 | An alert is reserved exactly when none was within the cooldown |
| `Findings.Store.RecordFinding` | internal/controller/alerts.go:176-194 | An alert is raised exactly for a newly linked event of an enabled rule out of cooldown when no call fails; once the finding is stored a replay raises none |

## Left out

- Template.RenderIsSimultaneous: the condition is sufficient for every page; a value with braces often does no harm, and the exact condition is proved for a page of one placeholder and two values only.
- Transport.Server.Stream: the JSON decoder and certificate parsing are parameters; `authenticatedSensor` is a fixed sensor name.
- Replay.Client.RunOnce: handles each exchange in one go; what may happen between its steps is covered by the step system, in which they are separate. A listing whose files cannot be read ends the connection as a break of the step system does; the wait between heartbeats is left out.
- Spool.Spool.Put: clock readings before 1970, for which the padded stamp has a minus sign, are not modelled.
- EventStore.Store.Insert: observables, evidence correlations and the full-text index are a set of indexed IDs; evidence IDs are assumed not to repeat an existing file's path, and sealing is a function of the bytes.
- Pipeline.NoLoss: retention does not run in the step system; it deletes committed events by design and is modelled on its own.
- Snapshot.ForEachSnapshot: VACUUM, which renumbers rows, is excluded together with rowid reuse by the hypothesis that rows up to the mark only disappear.
- Retention.Store.PruneKind: a row iteration that ends early with an error the code does not check is not modelled; an error in scanning a row counts as one of its Stat.
- Model.NormalizeOnce: lower-casing covers ASCII letters only.
- Snapshot.NoReuseIff: exact for the assumption at every moment; an export may still be right if a reused rowid is gone again, or behind the cursor, when its page is read.
- Retention.Store.EnforceCap: creation times are integers; the code compares RFC 3339 strings with trimmed fractions, whose order is that of time to the whole second.
- Findings.Store.UpsertFinding: last_seen is likewise an integer instead of a string.
- ShellLex.Lex: a `${name}` with bytes outside ASCII is decided by a parameter, as Go reads such names as UTF-8; `ShellLines` assumes that none with a semicolon is a name.
- Shell.Shell.Run: trims ASCII white space only.
- ShellLines.OneLineOrTwo: for a second line with at least one token; a second line such as `''` runs nothing but, on its own, resets the status.
- Shell.Shell.Exec: commands that only read the session (ls, find, grep, printf, env, ps and the like) are a parameter; a rule's file map is a sequence, in the order the map yields.
- Uuid.Generator.NewUUIDv7: times before 1970 and a failing random source are not modelled; the order of IDs is claimed for 48-bit milliseconds.
- Session.Session.Emit: sending to the sink is the Put of the pipeline; addresses keep only their text.
- LineEditor.Session: redrawing of the terminal is not modelled, and whether a submitted command ends the session is a parameter; blank means ASCII white space.
- Outbox.Outbox.DeliverDue: assumes that store writes succeed (a failing write would leave the row due and the loop going) and that nothing is enqueued or retried meanwhile; times are integers of seconds, where the code compares RFC 3339 strings.
- Broker.Broker.Subscribe: the 64-bit subscription counter does not wrap.
- AuthGate.Gate.Accept: whether credentials are honey credentials is a parameter; the mutex makes attempts sequential.
- The HTTP decoy's routing, conversation table and path matching; the SFTP upload buffer; the replay loop's reconnect delay; the health check's choice of sensors: each says little beyond its body.
- gRPC, TLS, HTTP, SSH and SFTP libraries, AES-GCM, age, SHA-256, HMAC and SQLite: replaced by what the code relies on of them.
- Configuration, certificates, firewall, metrics, bundles, the API and the dashboard.
