# Verification of the topsrv agent's stateful cores

This project models the parts of topsrv that keep state over time, or that order, truncate or parse
data others depend on, and proves what they promise. It stands beside the Go sources and verifies on
its own:

    dafny verify dfyconfig.toml

The shape follows the Go code. An object whose methods change its fields is a class (`Pusher`,
`Updater`, `Collector`, `Counters`, `LogCollector`); an in-place algorithm keeps its array; a loop is
a loop. Every such method is proved against a function or a predicate over plain values, and the
promises are then proved about those, over every input and every run. `Shipping`, `CrashWindow`,
`StatementEffects`, `LogEffects`, `LabelForms`, `ParagraphLines` and `KernelFields` say the same once
more in the plainest terms: status codes, seconds, counted lines, bytes and package fields. Whatever
the code meets from outside (replies, disk errors, clock readings, the point of a crash, the order a
sort leaves equal elements in) is an arbitrary input.

| files | core |
|---|---|
| `Protocol`, `SpoolNames`, `Passes`, `Lifetime`, `Shipping`, `Interruptions`, `Activities`, `Delivery`, `Pusher` | the spooling shipper |
| `Versions`, `Trimming`, `Rollback`, `CrashWindow`, `Updater` | the self-updater and its crash-loop rollback |
| `Statements`, `TopStatements`, `StatementEffects`, `Collector` | PostgreSQL statement statistics |
| `UriCounters`, `LogMetrics`, `LogEffects`, `LogCollector` | the bounded URI counters and the access-log accumulators |
| `Utf8`, `CodePoints`, `Paths`, `LabelForms` | UTF-8-safe cutting and the label form of request paths |
| `Dpkg`, `Paragraphs`, `ParagraphLines` | the paragraph parser of dpkg and apt |
| `Kernel`, `KernelFields` | the kernel version order and package flags |
| `HostWrites` | host bytes written, from a SMART page |
| `Lex`, `Listings`, `Samples`, `Numbers`, `Text`, `Arith`, `Options` | shared definitions |

**The shipper** is a machine of atomic effects (`Protocol.Step`): each effect on the queue, the batch,
the receiver or the spool directory is one step, so that a crash may fall between any two of them,
inside a file write included, and producers may enqueue between any two. A ledger that no code reads
records what was accepted, sealed under an id, transmitted and given up, and why. The invariant
(`Protocol.Inv`) is kept by every step; `Delivery` draws the whole-run promises from it. `Passes` and
`Lifetime` say which steps each Go function takes and where they lead, `Interruptions` what a crash or
a producer between any two of them changes, `Activities` cuts a life into activities woven with the
events that arrive among their effects, and the class `Pusher` is proved to take exactly those
steps.

**The updater** is a machine over starts, exits, stability marks and updates, with the state file,
the binary and the backup directory as state. The restart count is compared with a second definition
that looks only at the history of the host: the starts that counted since the latest reset.

## What the proofs say about the code and its comments

Where the code and its comments or intentions differ, the model follows the code:

- The shutdown drain may call `flushFinal` three times, not two (`internal/topsrv/shipper/pusher.go:42-45`):
  `Interruptions.DrainCanTakeThree` is such a run. Three always suffice, and two do if and only if queue
  and batch together hold at most two batches (`Lifetime.DrainAtMostThree`).
- Spool names replay in time order if and only if the earlier millisecond count does not exceed the
  leading digits of the later one, as many as the earlier has (`SpoolNames.SpoolOrderIff`): always for
  equally long numerals, not for 9 and 10 (`SpoolNames.SpoolOrderBreaksAtWiderCounts`).
- A batch can be in two places (`Delivery.TwoPlacesExample`): if and only if after some accepted replay
  of it no replay removed its file (`Delivery.OnePlaceEach`). It is acknowledged and still on disk if and
  only if nothing at all removed the file since (`Delivery.AcceptedAndOnDiskIff`); evicted meanwhile, it
  is acknowledged and given up (`Delivery.EvictedThoughAcceptedExample`). When removals succeed only a
  crash between the accepted replay and the removal leaves such a batch, one a life at most, however
  many events arrive in between (`Delivery.ConservationOverLives`), and the receiver's deduplication by
  id covers it (`Delivery.DeduplicationCountsOnce`).
- Three crash-like starts do not by themselves cause a rollback: a start after a graceful exit does
  not attempt one even when an earlier attempt failed and the count is still three
  (`Rollback.CountAloneAttemptsNothing`; the exact condition is `Rollback.RollbackAttemptedIff`).
- `trimBackups` may remove the backup made a moment before: it survives in every order the sort may
  leave equal names in if and only if at most one other backup is at or above it
  (`Rollback.BackupSurvivesIff`), which fails after a downgrade (`Rollback.DowngradeLosesBackup`). An
  update dies in it if and only if the directory then holds more than two entries but fewer than two
  files (`Rollback.UpdatePanicsIff`, `Rollback.UpdatePanicExample`).
- An update saves its state before it replaces the binary (`internal/topsrv/updater.go:284-294`). When
  the replacement fails, the next rollback returns to the binary that is in place already, and the one
  an earlier update had replaced is no longer restored (`Rollback.FailedReplacementKeepsBinary`).
- `compareVersionedNames` tells the order of two versions if and only if their first differing
  segments differ by what fits 64 bits (`Versions.CompareExactIff`); a negative segment can make each
  of two names compare below the other (`Versions.NegativeSegmentExample`).
- The histogram's observations sum to the recorded sum if and only if no outlier exceeded the time of
  its statement (`Statements.ObservationsAccount`, `TopStatements.HistogramSumOverRuns`); otherwise
  they sum to more, as in `TopStatements.SurplusExample`.
- A statement query that fails after its first rows counts as finished: `scanStatements` stops when
  there is no next row and never asks whether that was an error
  (`internal/topsrv/postgres/statements.go:160-201`), as the bloat queries of the same package do
  (`internal/topsrv/postgres/bloat.go:189`). A taken lock or a query that fails at once leaves the state
  alone, but a result that breaks off forgets every statement it did not deliver
  (`TopStatements.KeptIff`) and is harmless if and only if no readable row was missing
  (`TopStatements.BrokenOffHarmlessIff`). What such a statement did until it is read again never reaches
  the histogram (`TopStatements.BreakLosesCalls`, `TopStatements.BrokenStreamExample`), and a result
  without any row also wipes the debounce set (`TopStatements.BrokenAtOnce`).

## Model

| member | source | states |
|---|---|---|
| `Protocol.InvStep` | internal/topsrv/shipper/pusher.go:247-391 | every single effect keeps the invariant: order, size caps, fresh ids, complete spool files, faithful transmissions, one whereabouts per batch, truthful causes |
| `Protocol.InvRun` | internal/topsrv/shipper/pusher.go:259-292 | the invariant holds after every legal run of effects, whatever the replies, disk errors and crash points |
| `Protocol.RunConcat` | internal/topsrv/shipper/pusher.go:259-292 | runs compose: one after the other is legal and leads where the second leads from the first |
| `Protocol.AllPlacedStep` | internal/topsrv/shipper/pusher.go:309-508 | every effect leaves each sealed batch in flight, on disk, acknowledged or given up; in two of these exactly while the ledger calls it unsure |
| `Protocol.LogSoundStep` | internal/topsrv/shipper/pusher.go:393-443 | every transmission, whether a first send, a retry or a replay, carries the payload its id was sealed with |
| `SpoolNames.NewBatchIdInjective` | internal/topsrv/shipper/pusher.go:657-664 | two ids are equal only if both the millisecond and the 64 random bits are |
| `SpoolNames.BatchIdRoundTrip` | internal/topsrv/shipper/pusher.go:666-668 | the id read off a spool path is the id the file was written under |
| `SpoolNames.NamesSeparate` | internal/topsrv/shipper/pusher.go:48-50 | final and temporary names match one glob each, never the other's, and keep their ids apart |
| `SpoolNames.GlobsSplitDirectory` | internal/topsrv/shipper/pusher.go:495-521 | of a directory of both kinds the replay glob selects exactly the final files, the clean-up glob exactly the temporary ones |
| `SpoolNames.NewConfigValid` | internal/topsrv/shipper/pusher.go:184-199 | the defaults (5000 events, 200 MiB, for options that are not positive), the real ids and the real name order meet everything the protocol assumes |
| `SpoolNames.SpoolOrderIff` | internal/topsrv/shipper/pusher.go:521-521 | a later batch replays after an earlier one if and only if the earlier millisecond count does not exceed the leading digits of the later one, as many as it has itself |
| `SpoolNames.SpoolOrderIsTextual` | internal/topsrv/shipper/pusher.go:521-521 | names of different milliseconds sort as their numerals do as text, whatever the random parts |
| `SpoolNames.SpoolOrderIsChronological` | internal/topsrv/shipper/pusher.go:521-521 | hence oldest first for equally long numerals |
| `Delivery.PassInTimeOrder` | internal/topsrv/shipper/pusher.go:510-540 | one replay pass transmits its batches in the order of their times, as long as all millisecond counts met so far are equally long |
| `SpoolNames.SpoolOrderBreaksAtWiderCounts` | internal/topsrv/shipper/pusher.go:657-664 | and not across a change of length: 10 ms sorts before 9 ms |
| `Delivery.Conservation` | internal/topsrv/shipper/pusher.go:247-391 | in every reachable state the accepted events are, as a multiset, those queued, batched, in flight, spooled, acknowledged, given up for a named cause, or lost before they got an id |
| `Delivery.OnePlaceEach` | internal/topsrv/shipper/pusher.go:483-508 | a sealed batch is in exactly two places if after some accepted replay of it no replay removed its file, and in exactly one otherwise |
| `Delivery.AcceptedAndOnDiskIff` | internal/topsrv/shipper/pusher.go:483-508 | it is acknowledged and on disk if and only if after some accepted replay its file was removed for no reason at all, eviction and later rejection included |
| `Delivery.TwoPlacesExample` | internal/topsrv/shipper/pusher.go:498-507 | a run that leaves a batch acknowledged and on disk |
| `Delivery.EvictedThoughAcceptedExample` | internal/topsrv/shipper/pusher.go:568-588 | a run that goes on to evict it: acknowledged, given up, and no longer on disk |
| `Delivery.ConservationOverLives` | internal/topsrv/shipper/pusher.go:256-292 | over any number of lives, each cut after any of its effects and woven with any arrivals, in which removals succeed: the accepted events are those on disk, acknowledged, given up or lost without id, but for the batches in two places, of which each life adds at most one, the one it broke off at between the accepted replay and the removal |
| `Delivery.CutRun` | internal/topsrv/shipper/pusher.go:256-292 | whatever part of a life has happened, whatever arrived during it, its death leaves a state from which the next life starts, with at most one batch newly in two places when removals succeed |
| `Delivery.LivesRun` | internal/topsrv/shipper/pusher.go:256-292 | every sequence of lives, each woven with any arrivals and cut anywhere, is a legal run |
| `Delivery.FifoAndCaps` | internal/topsrv/shipper/pusher.go:199-307 | closed batches, then the batch, then the queue are the accepted sequence in order; batches hold 1 to BatchSize events, the queue at most twice that |
| `Delivery.StableIdentity` | internal/topsrv/shipper/pusher.go:322-330 | all transmissions of one id carry one payload, that of one sealed batch, and no two batches share an id |
| `Delivery.DeduplicationCountsOnce` | internal/topsrv/shipper/pusher.go:424-424 | a receiver that stores the first transmission of each id stores every received batch once, and no event more often than it was accepted, whatever arrives in whatever order |
| `Delivery.CrashAtomicity` | internal/topsrv/shipper/pusher.go:445-477 | after a crash at any point of any activity each file the replay glob sees is a complete payload named after its batch, and anything torn is a `.tmp` |
| `Delivery.RestartCleansUp` | internal/topsrv/shipper/pusher.go:602-617 | the next start removes every leftover and no file to be replayed |
| `Interruptions.UnsureIff` | internal/topsrv/shipper/pusher.go:498-507 | a batch counts as unsure if and only if after some accepted replay of it no replay removed its file, read off the steps alone |
| `Interruptions.KeptIff` | internal/topsrv/shipper/pusher.go:483-508 | a batch is on disk though acknowledged if and only if after some accepted replay its file was not removed at all, after every prefix of every run |
| `Interruptions.UnsureWithin` | internal/topsrv/shipper/pusher.go:498-507 | wherever a run is cut whose own effects remove each file right after its accepted replay, only the batch it broke off at is newly in two places, however many events arrive in between |
| `Interruptions.ArrivalsCommute` | internal/topsrv/shipper/pusher.go:247-254 | events that arrive between the effects of a flush, a replay pass or a drain disturb none of them: the run is legal and ends as if those accepted had arrived after it |
| `Activities.ActIsPrompt` | internal/topsrv/shipper/pusher.go:498-507 | when removals succeed every accepted replay of an activity is followed, as its next own effect, by the removal of the file |
| `Activities.JoinedRun` | internal/topsrv/shipper/pusher.go:256-292 | any sequence of activities, each woven with the events that arrive among its effects, is a legal run back to where the next can start |
| `Activities.JoinedIsPrompt` | internal/topsrv/shipper/pusher.go:498-507 | when removals succeed every accepted replay of such a run is followed, as the next effect of the consumer, by the removal of its file |
| `Activities.LifeRealised` | internal/topsrv/shipper/pusher.go:256-292 | a life from start-up through the loop to the end of the drain is such a sequence of activities |
| `Passes.TakesRun` | internal/topsrv/shipper/pusher.go:297-307 | taking n events moves the first n of the queue, in order, to the end of the batch |
| `Passes.FirstKept` | internal/topsrv/shipper/pusher.go:569-588 | the first file of the longest suffix that fits the budget: it fits, and no longer suffix does |
| `Passes.TrimKeepsLongestSuffix` | internal/topsrv/shipper/pusher.go:568-588 | when removals succeed a trim removes exactly the files before the longest suffix, by name, that fits the byte budget |
| `Passes.TrimRun` | internal/topsrv/shipper/pusher.go:568-588 | a trim removes its victims, records them as evicted and changes nothing else |
| `Passes.SpoolRun` | internal/topsrv/shipper/pusher.go:450-477 | every path through spool ends the batch's flight: complete on disk, or given up as not spooled with the spool unchanged |
| `Passes.SendRun` | internal/topsrv/shipper/pusher.go:393-410 | one send, or two with the same id and payload when the first failed transiently and was not cancelled |
| `Passes.FlushRun` | internal/topsrv/shipper/pusher.go:309-334 | a flush empties the batch, closes one record, and the batch ends acknowledged, rejected, on disk or named as lost |
| `Passes.FinalRun` | internal/topsrv/shipper/pusher.go:356-391 | the shutdown variant sends at most once, and not at all once the budget is used up |
| `Passes.PassStops` | internal/topsrv/shipper/pusher.go:523-535 | a pass visits a prefix of the listing and stops early exactly at its third transient failure |
| `Passes.VisitedIff` | internal/topsrv/shipper/pusher.go:523-535 | a listed file is visited if and only if fewer than three before it fail transiently, so three that keep failing hold back all newer ones |
| `Passes.ReplayRun` | internal/topsrv/shipper/pusher.go:483-508 | what the replay of one file sends, removes and records, for each outcome |
| `Passes.RetryPass` | internal/topsrv/shipper/pusher.go:510-540 | a pass sends exactly the visited files, in listing order, removes exactly those that did not fail transiently and could be removed, and leaves all others untouched |
| `Passes.RetryConfirms` | internal/topsrv/shipper/pusher.go:498-507 | when removals succeed a pass leaves none of the batches it got accepted in two places, those of earlier passes included, and adds none |
| `Lifetime.CleanupRun` | internal/topsrv/shipper/pusher.go:602-617 | start-up removes the temporary files it can and nothing else |
| `Lifetime.DrainRun` | internal/topsrv/shipper/pusher.go:336-354 | the drain ends with queue and batch empty after exactly ceil((queue + batch) / BatchSize) calls of flushFinal |
| `Lifetime.DrainAtMostThree` | internal/topsrv/shipper/pusher.go:42-46 | that is at most three, and at most two if and only if at most two batches' worth is waiting |
| `Interruptions.DrainCanTakeThree` | internal/topsrv/shipper/pusher.go:42-46 | a run from the start after which the drain closes three batches, for every batch size above one |
| `Lifetime.TurnRun` | internal/topsrv/shipper/pusher.go:272-291 | every turn is a legal run back to rest |
| `Shipping.TurnEffects` | internal/topsrv/shipper/pusher.go:272-291 | by its effects: a producer's event is queued while there is room; a taken event closes a record of the batch and itself if and only if it fills the batch; a tick leaves the batch empty, closes exactly one record with its events if there were any, and sends every own, readable spool file before which fewer than three fail transiently |
| `Shipping.PumpsThenTickShipAll` | internal/topsrv/shipper/pusher.go:272-291 | as many turns of the queue as events wait and one tick leave queue and batch empty |
| `Shipping.FlushByCode` | internal/topsrv/shipper/pusher.go:309-410 | by status code: a second transmission if and only if the first met no reply, 408, 429 or 5xx and the process is not stopping; after the last one a status below 400 ends the batch, another 4xx gives it up, everything else keeps it on disk, or names it as evicted or not spooled; what a spooled batch leaves on disk are the last files that fit the budget, if files can be measured and removed |
| `Shipping.FinalByCode` | internal/topsrv/shipper/pusher.go:356-391 | the same for the shutdown variant, with one transmission, or none when the budget is used up |
| `Shipping.ReplayByCode` | internal/topsrv/shipper/pusher.go:483-508 | by status code: only an own, readable file is sent; no reply, 408, 429 and 5xx keep it, every other outcome removes it and names the cause |
| `Shipping.TransientByCode` | internal/topsrv/shipper/pusher.go:523-535 | the failures a pass counts are those without reply, 408, 429 and 5xx |
| `Shipping.TrimByBytes` | internal/topsrv/shipper/pusher.go:568-588 | what a trim leaves are the last files, by name, whose payloads fit the budget in bytes, and as many as fit |
| `Shipping.LifeEffects` | internal/topsrv/shipper/pusher.go:256-292 | a life sends what it finds on disk, every own, readable file before which fewer than three fail transiently, and ends with nothing waiting in memory |
| `Shipping.LifeCleansUp` | internal/topsrv/shipper/pusher.go:256-292 | in every reachable state: of the temporary files a life starts with it leaves only those that cannot be removed, because no later batch writes under such a name again |
| `Lifetime.LifeStages` | internal/topsrv/shipper/pusher.go:256-292 | clean-up, first replay, loop and drain follow each other legally and end empty |
| `Shipper.Pusher.Enqueue` | internal/topsrv/shipper/pusher.go:247-254 | appends to the queue if and only if it holds fewer than 2·BatchSize events, else drops the new event |
| `Shipper.Pusher.DrainQueue` | internal/topsrv/shipper/pusher.go:297-307 | fills the batch from the queue, in order, until the one is full or the other empty |
| `Shipper.Pusher.Flush` | internal/topsrv/shipper/pusher.go:309-334 | takes exactly the steps of a flush from any state at rest |
| `Shipper.Pusher.FlushFinal` | internal/topsrv/shipper/pusher.go:359-391 | takes exactly the steps of the shutdown flush |
| `Shipper.Pusher.Send` | internal/topsrv/shipper/pusher.go:412-443 | transmits the payload it is given under the id it is given |
| `Shipper.Pusher.SendWithRetry` | internal/topsrv/shipper/pusher.go:393-410 | transmits its payload under its id once, or twice the same, and returns the last reply |
| `Shipper.Pusher.SpoolBatch` | internal/topsrv/shipper/pusher.go:450-477 | takes exactly the steps of spooling, for every disk outcome |
| `Shipper.Pusher.TrimSpool` | internal/topsrv/shipper/pusher.go:569-588 | takes exactly the evictions of a trim |
| `Shipper.Pusher.ScanSpool` | internal/topsrv/shipper/pusher.go:544-561 | the sorted listing, the sizes and their total |
| `Shipper.Pusher.ReplayOne` | internal/topsrv/shipper/pusher.go:487-508 | sends a file under the id read off its name and removes it unless the failure is transient |
| `Shipper.Pusher.RetrySpool` | internal/topsrv/shipper/pusher.go:513-540 | takes exactly the steps of one replay pass |
| `Shipper.Pusher.CleanupSpoolTmp` | internal/topsrv/shipper/pusher.go:605-617 | takes exactly the removals of the clean-up |
| `Shipper.Pusher.DrainAndFlushAll` | internal/topsrv/shipper/pusher.go:340-354 | takes exactly the steps of the drain, returns how many events it shipped, and calls flushFinal the proved number of times |
| `Shipper.Pusher.TakeTurn` | internal/topsrv/shipper/pusher.go:272-291 | one turn takes exactly the proved steps and has their effects: a tick ships the batch and replays the spool, a taken event ships a batch it fills |
| `Shipper.Pusher.TakeTurns` | internal/topsrv/shipper/pusher.go:272-291 | any sequence of turns of the select loop takes exactly the proved steps; after one that ends with a tick the batch is empty |
| `Shipper.Pusher.Live` | internal/topsrv/shipper/pusher.go:259-292 | a whole call of Run takes exactly the steps of a life, replays what it finds on disk, and ends with queue and batch empty |
| `Versions.CompareExactIff` | internal/topsrv/updater.go:509-516 | the comparison agrees with the lexicographic order of the segments if and only if the first difference fits 64 bits |
| `Versions.ReleasesPreordered` | internal/topsrv/updater.go:497-517 | on names whose version has no negative segment it is a total preorder |
| `Versions.NumericSegments` | internal/topsrv/updater.go:497-517 | segments compare as numbers: the first smaller one makes the older version |
| `Versions.ExtractAfterPrefix` | internal/topsrv/updater.go:519-526 | the version is read back off the name a backup is given, without a leading `v` |
| `Versions.DottedSortNumerically` | internal/topsrv/updater.go:497-526 | backups of versions made of numbers sort as the sequences of their numbers do, so 0.0.12 before 0.0.19 before 0.1 |
| `Versions.UnversionedByText` | internal/topsrv/updater.go:501-503 | a name without a version compares as text |
| `Versions.NegativeSegmentExample` | internal/topsrv/updater.go:509-514 | two names of which each compares below the other |
| `Numbers.LongNumberSaturates` | internal/topsrv/updater.go:510-511 | a segment of more than twenty digits reads as the largest integer |
| `Numbers.DecimalReadsBack` | internal/topsrv/updater.go:508-511 | every number written in decimal, with or without a minus, reads back or as the nearest bound |
| `Rollback.RestartCountIsCrashCount` | internal/topsrv/updater.go:557-590 | on every run RestartCount is the number of starts, within the window and not after a graceful exit, since the latest update, stability mark, rollback or start outside the window |
| `Rollback.RollbackAttemptedIff` | internal/topsrv/updater.go:574-589 | a start attempts a rollback if and only if it counts and is at least the third to do so since the latest reset |
| `CrashWindow.ThirdCrashRollsBack` | internal/topsrv/updater.go:557-590 | from the history, in seconds: 300 or more after the latest update a start neither rolls back nor keeps a count; earlier, and not after a graceful exit, it rolls back if and only if at least two starts have crashed before it since, the backup is there and the replacement succeeds |
| `CrashWindow.UpdateByOutcome` | internal/topsrv/updater.go:279-298 | an update whose backup is written and that does not die notes the time and both versions, forgets the crashes, and installs and exits or keeps the binary and goes on; any other one leaves state file and binary alone |
| `CrashWindow.StartByTheClock` | internal/topsrv/updater.go:557-618 | state file, binary and process after a start, for every case of the clock, the flag and the count |
| `Rollback.CountAloneAttemptsNothing` | internal/topsrv/updater.go:574-580 | a run whose count is three and whose next start attempts nothing, because the exit before it was graceful |
| `Rollback.OrderlyNeverRollsBack` | internal/topsrv/updater.go:193-235 | when every exit but the one after an update is graceful no start attempts a rollback |
| `Rollback.OrderlyFromFresh` | internal/topsrv/updater.go:193-235 | and the count never exceeds one |
| `Rollback.RollbackRestores` | internal/topsrv/updater.go:601-618 | a rollback that succeeds before another update is saved leaves exactly the binary that was backed up, attempts whose backup failed in between included |
| `Rollback.FailedReplacementKeepsBinary` | internal/topsrv/updater.go:279-294 | after an update whose replacement failed the binary in place stays, whatever crashes and rollbacks follow, until another update is saved: the version to return to is its own |
| `Rollback.RollbackPossible` | internal/topsrv/updater.go:446-473 | with room for the backup it stays present and intact until another update is saved, so only the replacement itself can fail |
| `Rollback.ThirdCountedStartRestores` | internal/topsrv/updater.go:557-618 | after an update, the third start that counts since the latest reset rolls back if the replacement succeeds, and installs exactly the binary the update replaced |
| `Rollback.CrashLoopExample` | internal/topsrv/updater.go:557-618 | a run from an empty backup directory, at any time, in which it does: version 2 crashes twice and its third start returns to version 1 |
| `Rollback.NoSecondRollback` | internal/topsrv/updater.go:601-618 | after a successful rollback no start attempts another before a new update is saved |
| `Rollback.TrimKeepsGreatest` | internal/topsrv/updater.go:475-495 | a trim keeps exactly two backups and removes none that compares above a kept one |
| `Rollback.NewBackupSurvives` | internal/topsrv/updater.go:475-495 | with at most one other backup at or above it the new backup survives any sort and any trim |
| `Rollback.BackupSurvivesIff` | internal/topsrv/updater.go:446-495 | the backup survives its own update in every order the sort may produce if and only if at most one other backup is at or above it |
| `Rollback.UntiedBackupLost` | internal/topsrv/updater.go:446-495 | without ties and with two newer backups every update loses its own backup |
| `Rollback.DowngradeLosesBackup` | internal/topsrv/updater.go:475-495 | a host on which the rollback after an update is impossible |
| `Rollback.UpdatePanicsIff` | internal/topsrv/updater.go:475-495 | an update whose backup was written dies in trimBackups, before the state is saved, if and only if the directory then holds more than two entries and fewer than two files |
| `Rollback.UpdatePanicExample` | internal/topsrv/updater.go:481-492 | a host with two folders in its backup directory on which it does |
| `SelfUpdate.Updater.Replace` | internal/topsrv/updater.go:529-553 | the binary is the new one or untouched |
| `SelfUpdate.Updater.AttemptRollback` | internal/topsrv/updater.go:606-618 | installs the backup and closes the window, or changes nothing |
| `SelfUpdate.Updater.CheckRollback` | internal/topsrv/updater.go:557-590 | counts and rolls back only within 300 seconds of the update and not after a graceful exit, at the third count if the backup is there and the replacement succeeds; forgets the count outside; saved state, binary and exit for every case |
| `SelfUpdate.Updater.StartProcess` | internal/topsrv/updater.go:162-164 | a start takes exactly the step of the rollback machine, and decides by the clock |
| `SelfUpdate.Updater.MarkStable` | internal/topsrv/updater.go:196-212 | zeroes the count and nothing else |
| `SelfUpdate.Updater.ExitGraceful` | internal/topsrv/updater.go:217-235 | sets the flag and nothing else |
| `SelfUpdate.Updater.TrimBackups` | internal/topsrv/updater.go:475-495 | removes the lowest files of the order, or panics |
| `SelfUpdate.Updater.Install` | internal/topsrv/updater.go:279-298 | backs up, saves the time and both versions, replaces and exits, for every outcome of each part |
| `Statements.ObservationsAccount` | internal/topsrv/postgres/statements.go:204-237 | a delta stands for exactly as many observations as calls; they sum to at least its time, and to it if and only if the outliers do not exceed it |
| `StatementEffects.ObservedAs` | internal/topsrv/postgres/statements.go:208-234 | a new longest and a new shortest time are observed as they are, in seconds, the other calls at the mean of what is left, never below zero |
| `Statements.BucketsMonotone` | internal/topsrv/postgres/statements.go:226-246 | buckets that count the observations grow with the bound and never exceed the count |
| `Statements.ScanLeavesScanned` | internal/topsrv/postgres/statements.go:160-201 | a scan leaves the counters of exactly the statements it read |
| `Statements.EntriesAreDeltas` | internal/topsrv/postgres/statements.go:177-192 | every scanned entry is the delta of one row against the previous scrape |
| `StatementEffects.EntriesFollowRows` | internal/topsrv/postgres/statements.go:163-192 | one entry for each readable row, in order, with what each counter grew by since the previous scrape, or nothing for a new statement |
| `Statements.CountGrowsByContributions` | internal/topsrv/postgres/statements.go:186-188 | the count grows by the sum of the rows' call deltas, those of new or reset statements left out |
| `Statements.SumNeverBelow` | internal/topsrv/postgres/statements.go:235-236 | a scan never lets the observations fall below the recorded sum, and keeps them equal if and only if nothing was clamped |
| `StatementEffects.SumGrowsBySeconds` | internal/topsrv/postgres/statements.go:183-186 | a scrape adds to the recorded sum the seconds by which the time of each statement grew whose calls grew |
| `TopStatements.HistogramSumOverRuns` | internal/topsrv/postgres/statements.go:204-237 | the same over every sequence of scrapes |
| `TopStatements.SurplusExample` | internal/topsrv/postgres/statements.go:204-237 | a run of two scrapes after which the observations sum to more than the recorded sum |
| `TopStatements.MetricsWithinMeta` | internal/topsrv/postgres/statements.go:428-434 | the metrics set is contained in the metadata set |
| `TopStatements.TopKeysBounded` | internal/topsrv/postgres/statements.go:446-459 | a dimension contributes at most its limit of keys |
| `TopStatements.SelectedGrew` | internal/topsrv/postgres/statements.go:446-459 | every selected statement has a positive delta in a ranked dimension |
| `TopStatements.LeftOutIsBeaten` | internal/topsrv/postgres/statements.go:435-469 | a statement that grew and was left out is matched or beaten in that dimension by twenty different selected statements |
| `StatementEffects.TopTwentySelected` | internal/topsrv/postgres/statements.go:435-469 | a statement that grew and that fewer than twenty others match or beat in time, calls, blocks read, blocks dirtied or WAL is selected; with fewer than thirty its text is wanted |
| `StatementEffects.SelectedIsTopTwenty` | internal/topsrv/postgres/statements.go:446-459 | whatever is selected grew in one of these, with fewer than twenty that grew more |
| `TopStatements.DistinctRowsDistinctEntries` | internal/topsrv/postgres/statements.go:126-126 | a scan of rows grouped by statement and database has one entry for each |
| `TopStatements.EmittedNeedsThreeScans` | internal/topsrv/postgres/statements.go:411-426 | a statement is emitted only if three consecutive scrapes, the current one included, were given its row |
| `StatementEffects.SelectedTwiceIsEmitted` | internal/topsrv/postgres/statements.go:411-426 | a statement selected by two consecutive scrapes is emitted by the second |
| `TopStatements.SteadyCallsTelescope` | internal/topsrv/postgres/statements.go:179-192 | the contributions of a statement that never leaves or decreases are its last calls minus its first |
| `StatementEffects.SteadySecondsTelescope` | internal/topsrv/postgres/statements.go:183-186 | what such a statement adds to the recorded sum, if its time grows only with its calls, is its last total time minus its first, in seconds |
| `TopStatements.NothingGrewNothingChosen` | internal/topsrv/postgres/statements.go:432-434 | when no delta is positive, as on an idle database or after a reset, nothing is selected in any ranking |
| `TopStatements.KeptIff` | internal/topsrv/postgres/statements.go:84-131 | an attempt without lock or with a failing query keeps all statements; one that reaches the rows keeps exactly those it was given, which are the old ones if and only if the keys are the same |
| `TopStatements.BrokenOffHarmlessIff` | internal/topsrv/postgres/statements.go:160-201 | a result that breaks off leaves the state of the whole result if and only if no readable row is missing |
| `TopStatements.BrokenAtOnce` | internal/topsrv/postgres/statements.go:195-201 | one that breaks off before its first row forgets every statement and empties the debounce set, and keeps the histogram |
| `TopStatements.BreakLosesCalls` | internal/topsrv/postgres/statements.go:179-199 | a statement otherwise always read loses to one scrape that was not given it exactly the calls between the scans around it |
| `TopStatements.BrokenStreamExample` | internal/topsrv/postgres/statements.go:127-147 | three attempts of which the second breaks off at once: ten calls happened and the histogram holds none |
| `PostgresCollector.Collector.AddToBuckets` | internal/topsrv/postgres/statements.go:240-246 | adds to exactly the buckets whose bound is not below the value |
| `PostgresCollector.Collector.FeedHistogram` | internal/topsrv/postgres/statements.go:208-237 | adds exactly the observations of the delta, and keeps buckets and count those of all observations |
| `PostgresCollector.Collector.ScanStatements` | internal/topsrv/postgres/statements.go:154-202 | computes the scan of the rows delivered: new state, entries, histogram, forgotten statements |
| `PostgresCollector.Collector.DebounceTop` | internal/topsrv/postgres/statements.go:417-426 | returns what is in this and the previous top set and remembers this one |
| `PostgresCollector.Collector.CollectStatements` | internal/topsrv/postgres/statements.go:71-147 | without column, lock or answer changes and publishes nothing; otherwise publishes the histogram if it holds anything and exactly the scanned entries whose keys are selected now and were by the previous scrape, one for each position of the scan and in its order |
| `PostgresCollector.SortDescending` | internal/topsrv/postgres/statements.go:449-449 | leaves a permutation of the indices in descending order of the dimension |
| `PostgresCollector.AddTopN` | internal/topsrv/postgres/statements.go:445-459 | adds the keys of the first 20 and 30 ranks with a positive value, and no others |
| `PostgresCollector.SelectTopStatements` | internal/topsrv/postgres/statements.go:435-469 | both sets are the unions of the leaders of four or five dimensions |
| `UriCounters.Counters.Add` | internal/topsrv/nginx/uricounters.go:37-57 | counts a known key always, a new key when there is room or a sweep makes some, the overflow key otherwise |
| `UriCounters.Counters.Sweep` | internal/topsrv/nginx/uricounters.go:59-72 | at most once a minute drops exactly the keys idle for more than an hour |
| `UriCounters.SizeBounded` | internal/topsrv/nginx/uricounters.go:40-57 | over every run at most `limit` ordinary keys are resident, and at most the overflow keys on top |
| `UriCounters.CountSinceInsertion` | internal/topsrv/nginx/uricounters.go:40-57 | a resident ordinary key holds the sum of all its adds since the call that inserted it, and was resident ever since |
| `UriCounters.RecentlyHitStays` | internal/topsrv/nginx/uricounters.go:59-72 | a key counted within the last hour is still resident |
| `UriCounters.SweepsSpaced` | internal/topsrv/nginx/uricounters.go:59-66 | over every run full passes are at least a minute apart, whatever the clock does |
| `UriCounters.OverflowOnlyWhenFull` | internal/topsrv/nginx/uricounters.go:37-52 | a hit goes to overflow only if its key is new, the table is full, and a sweep that was due left only live keys |
| `UriCounters.EvictsIff` | internal/topsrv/nginx/uricounters.go:40-72 | a call evicts a key if and only if a new key found the table full, the last sweep was a minute or more ago and the key was idle for more than an hour |
| `UriCounters.CountsBelowLimit` | internal/topsrv/nginx/uricounters.go:40-57 | a hit that is known or finds room counts its own key and touches no other |
| `UriCounters.ExactWhileRoom` | internal/topsrv/nginx/uricounters.go:37-57 | while a run has no more distinct keys than the limit every key is resident and counts all its adds |
| `UriCounters.LivePlusEvicted` | internal/topsrv/nginx/uricounters.go:10-14 | for every class of keys that overflow respects, resident plus evicted counts equal what was added |
| `LogMetrics.Bucket` | internal/topsrv/nginx/log.go:1097-1104 | the first bound not below the value |
| `LogMetrics.HistogramsCountDurations` | internal/topsrv/nginx/log.go:960-975 | after any log both histograms count exactly the durations that parsed, by range, in number and in sum |
| `LogMetrics.CumulativeIsDirect` | internal/topsrv/nginx/log.go:1106-1114 | the running total at every bound is the number of recorded values not above it, and all ranges with the overflow add up to the count |
| `LogMetrics.StatusSumKept` | internal/topsrv/nginx/log.go:941-950 | for each 4xx or 5xx status resident plus evicted counts equal the lines with that status and a URI |
| `LogMetrics.FamilyMatchesStatus` | internal/topsrv/nginx/uricounters.go:13-14 | so a URI family sums to its status in the request counter, up to evictions and lines without URI |
| `LogEffects.UrisExactWhileRoom` | internal/topsrv/nginx/log.go:941-950 | while at most a thousand distinct (status, URI) pairs of a class were logged its table holds exactly those, each with the number of its lines |
| `LogMetrics.StatusesExact` | internal/topsrv/nginx/log.go:919-920 | without extra labels each status counts exactly its lines |
| `LogMetrics.BytesKept` | internal/topsrv/nginx/log.go:952-957 | the bytes table and its evictions hold all bytes of lines with a URI |
| `LogMetrics.BytesBounded` | internal/topsrv/nginx/log.go:952-957 | the bytes table holds at most one key more than its limit |
| `LogEffects.BytesExactWhileRoom` | internal/topsrv/nginx/log.go:952-957 | while at most a thousand distinct URIs were logged with a size each holds exactly the bytes of its lines |
| `LogEffects.BytesTotalExact` | internal/topsrv/nginx/log.go:952-953 | the byte total is the sum of the sizes of all lines with a status |
| `LogMetrics.TaggedExact` | internal/topsrv/nginx/log.go:921-937 | labelled series never exceed 500; one that exists counts all its lines, one that lost a line found the table full |
| `LogEffects.LabelsByPosition` | internal/topsrv/nginx/log.go:924-934 | the labels of a line are the extras at their positions, empty when missing or a dash |
| `LogEffects.CacheExact` | internal/topsrv/nginx/log.go:977-979 | every cache status but the empty one and the dash counts exactly its lines |
| `LogEffects.UpstreamTimesAre` | internal/topsrv/nginx/log.go:966-975 | one upstream time counts as it is, of several the first without white space |
| `AccessLog.LogCollector.RecordLine` | internal/topsrv/nginx/log.go:914-980 | one line updates every accumulator as specified |
| `AccessLog.LogCollector.CountUri` | internal/topsrv/nginx/log.go:941-950 | only 5xx and 4xx lines with a URI reach their table |
| `AccessLog.BucketIndex` | internal/topsrv/nginx/log.go:1097-1104 | finds the range of a value |
| `AccessLog.CumulativeBuckets` | internal/topsrv/nginx/log.go:1106-1114 | maps every bound to the running total of its ranges |
| `Utf8.ValidPrefix` | internal/topsrv/text.go:22-24 | a prefix of valid UTF-8 is valid if and only if it ends where a rune starts, and then the rest is valid too |
| `Utf8.StartWithinThree` | internal/topsrv/text.go:22-24 | in valid UTF-8 a rune starts within any four consecutive positions |
| `CodePoints.ValidIffEncoded` | internal/topsrv/text.go:22-24 | a byte string is valid if and only if it is the UTF-8 encoding of some Unicode scalar values |
| `Utf8.TruncateAtRune` | internal/topsrv/text.go:14-25 | cuts at the last rune start within the budget |
| `Utf8.TruncatedIsLongest` | internal/topsrv/text.go:5-13 | for valid UTF-8 the result is valid, the longest valid prefix within the budget, and gives up at most three bytes |
| `Paths.TruncatePath` | internal/topsrv/nginx/log.go:1083-1095 | cuts in front of separator number max(1, depth), trailing slashes not counted |
| `Paths.TruncationIsUnique` | internal/topsrv/nginx/log.go:1083-1095 | which determines the result |
| `LabelForms.DeepPathIsCut` | internal/topsrv/nginx/log.go:1083-1095 | a path of more than two segments keeps the first two and the marker |
| `LabelForms.ShallowPathStays` | internal/topsrv/nginx/log.go:1083-1095 | one of two segments stays as it is, slashes behind it included |
| `Paths.TruncationIdempotent` | internal/topsrv/nginx/log.go:1083-1095 | truncating twice is truncating once |
| `Paths.TruncationBoundsDepth` | internal/topsrv/nginx/log.go:1081-1095 | at most max(1, depth) separators remain after the first byte, trailing slashes ignored |
| `Paths.TruncationKeepsUtf8` | internal/topsrv/nginx/log.go:1083-1095 | valid UTF-8 stays valid |
| `Paths.CappedIsSafe` | internal/topsrv/nginx/log.go:1070-1078 | the cap keeps valid UTF-8, 240 bytes, and all but at most three bytes of what fits |
| `Paths.NormalizePath` | internal/topsrv/nginx/log.go:999-1079 | rejects exactly the over-long, invalid, control-byte and escaped paths, labels scanner probes, and otherwise rewrites, truncates and caps |
| `LabelForms.LabelByBytes` | internal/topsrv/nginx/log.go:999-1079 | byte by byte: over 1024 bytes, invalid, a byte below 32 or a backslash before an x is invalid; one of seven suffixes anywhere, in any case, is a probe; anything else is rewritten, cut behind two segments and, above 240 bytes, at a rune |
| `Paths.LabelIsSafe` | internal/topsrv/nginx/log.go:1070-1078 | for every input the label is valid UTF-8 of at most 240 bytes, if the regular expressions keep valid UTF-8 valid |
| `Dpkg.ParseRfc822` | internal/topsrv/packages/dpkg.go:142-184 | the records of the document, or an error if a line does not fit the buffer or the reader fails |
| `Dpkg.StepsKeepSane` | internal/topsrv/packages/dpkg.go:148-176 | a key is remembered exactly while a record is open, it is one of its keys, and no empty record is produced |
| `Dpkg.BlankLineJoins` | internal/topsrv/packages/dpkg.go:150-163 | parsing two documents joined by a blank line is joining their parses |
| `ParagraphLines.FieldLine` | internal/topsrv/packages/dpkg.go:170-177 | a field is its key up to the first colon and what follows, trimmed, in place of an earlier value |
| `ParagraphLines.ContinuationLine` | internal/topsrv/packages/dpkg.go:164-169 | a line after a blank or a tab extends the open field, trimmed, or is ignored without one |
| `ParagraphLines.TabReadsAsBlank` | internal/topsrv/packages/dpkg.go:164-169 | a tab in front reads as a blank |
| `ParagraphLines.OtherLine` | internal/topsrv/packages/dpkg.go:170-173 | a line without a colon or with nothing in front of it is ignored |
| `ParagraphLines.TrimmedAtBothEnds` | internal/topsrv/packages/dpkg.go:166-175 | trimming takes the ASCII white space at both ends and nothing else |
| `ParagraphLines.LongLineFails` | internal/topsrv/packages/dpkg.go:143-144 | one line of a mebibyte or more, anywhere, and nothing is parsed |
| `Paragraphs.RoundTrip` | internal/topsrv/packages/dpkg.go:138-184 | any list of records, written field by field with continuation lines, is read back unchanged, unless a line is too long |
| `Paragraphs.EveryRecordHasFields` | internal/topsrv/packages/dpkg.go:138-141 | every record with well-formed keys and trimmed lines can be written that way |
| `Kernel.VersionRuns` | internal/topsrv/packages/kernel.go:138-152 | the values of the digit and letter runs, in order |
| `Kernel.VersionRunsDistribute` | internal/topsrv/packages/kernel.go:127-152 | the runs of two texts around any separator are the runs of the one followed by those of the other |
| `Kernel.LeadingRun` | internal/topsrv/packages/kernel.go:127-136 | a run ends where the class of characters changes, with or without a separator |
| `Kernel.RunValueBounds` | internal/topsrv/packages/kernel.go:141-149 | an over-long digit run is the largest value, a letter run is below every number |
| `Kernel.SmallerRunIsOlder` | internal/topsrv/packages/kernel.go:127-137 | after a common part the first smaller run makes the older release |
| `KernelFields.LettersBelowNumber` | internal/topsrv/packages/kernel.go:130-149 | behind a common part a run of letters comes before any number |
| `KernelFields.GeneralAvailabilityIsOlder` | internal/topsrv/packages/kernel.go:130-135 | 553.el8_10 is older than 553.5.1.el8_10 |
| `KernelFields.SeparatorsAreNoRun` | internal/topsrv/packages/kernel.go:123-125 | what is neither an ASCII letter nor a digit only separates |
| `Kernel.KernelOrder` | internal/topsrv/packages/kernel.go:116-125 | a total preorder: Active is equality of runs, Old and Pending mirror each other, and it is transitive |
| `Kernel.MarkKernelPackages` | internal/topsrv/packages/kernel.go:31-49 | marks every package in place by its own class; a reboot is required if and only if some bootable image is strictly newer; an empty release marks nothing |
| `Kernel.PendingImageIsNewer` | internal/topsrv/packages/kernel.go:55-85 | classified as a pending image is being a bootable image whose runs compare above the running ones |
| `Kernel.RunningRpmIsActive` | internal/topsrv/packages/kernel.go:66-72 | the rpm kernel package whose version, release and architecture make up the running release is the active one |
| `Kernel.RunningDpkgIsActive` | internal/topsrv/packages/kernel.go:57-65 | so is a dpkg package that names the running ABI |
| `Kernel.RunningApkIsActive` | internal/topsrv/packages/kernel.go:73-82 | so is the Alpine package of the running version, package release and flavour |
| `Kernel.MarkingIdempotent` | internal/topsrv/packages/kernel.go:31-49 | marking all packages twice is marking them once and asks for the same reboot |
| `Kernel.FlagsAreExact` | internal/topsrv/packages/kernel.go:31-49 | an unflagged package becomes active if and only if its runs equal the running ones, old if and only if they compare below, so never both, and nothing else of it changes |
| `KernelFields.DpkgByName` | internal/topsrv/packages/kernel.go:57-65 | dpkg, for any packages: a linux- package with an ABI in its name becomes active or old by the runs of that ABI against those of the running one, all others stay; a reboot is asked for if and only if a linux-image- package is newer |
| `KernelFields.RpmByRelease` | internal/topsrv/packages/kernel.go:66-72 | rpm: the same with version-release against the running release without its architecture, for the eleven kernel packages, four of them images |
| `KernelFields.ApkByFlavour` | internal/topsrv/packages/kernel.go:73-82 | apk: the same with version and package release against the running release without its flavour |
| `KernelFields.UnknownMarksNothing` | internal/topsrv/packages/kernel.go:31-34 | without a release, a known manager or an ABI nothing is marked |
| `Kernel.RebootIgnoresOrder` | internal/topsrv/packages/kernel.go:31-49 | the order of the packages does not matter for the reboot |
| `HostWrites.GuardIsExact` | internal/topsrv/smart/writes.go:86-91 | the guard by division rejects exactly the products that exceed 64 bits |
| `HostWrites.HostBytesWritten` | internal/topsrv/smart/writes.go:68-95 | the exact product of the lowest id with a known unit, a non-zero value and a product that fits, or nothing if and only if there is none; the slice ends sorted |
| `HostWrites.OrderDoesNotMatter` | internal/topsrv/smart/writes.go:62-67 | with distinct ids every order of the page has the same answer |
| `HostWrites.SameIdTwoAnswers` | internal/topsrv/smart/writes.go:72-72 | with a repeated id it may have two |
| `HostWrites.OneAnswerIff` | internal/topsrv/smart/writes.go:72-92 | any page has one answer if and only if its lowest qualifying attributes stand for the same number of bytes |
| `HostWrites.LowestTellingAnswers` | internal/topsrv/smart/writes.go:68-95 | by name and in numbers: the answer is what the lowest id tells in bytes whose name has a unit, whose value is not zero and whose product fits |
| `HostWrites.SingleAttribute` | internal/topsrv/smart/writes.go:68-95 | a lone Total_LBAs_Written answers with its value times the sector size, whatever that is, when it fits |

## Left out

- HTTP, TLS, gzip and JSON: a payload is its events and its compressed size, encoding may fail, and a reply is a status or no reply.
- The real file system: the spool is a map from ids to contents, split by the two globs; the backup directory a map from names to files and folders. Renames are atomic. Files an outsider plants under other names are not modelled; one with a foreign owner or unreadable content is.
- Prometheus counters, gauges and descriptors, log messages, and the enqueue-drop counter; a ledger takes their place in the shipper.
- Goroutine scheduling beyond the interleaving of producers with the shipper's effects: the updater's load-modify-save handlers are atomic. The number of calls of the shutdown drain is for a drain during which no event is enqueued.
- Download, checksum, extraction and trial run of an update, and the exits of the process; saving the state file is assumed to succeed.
- SelfUpdate.Updater.Replace: the temporary copy beside the binary is not a file of the model, because it is removed or renamed before anything reads it.
- Shipper.Pusher.Flush: the batch is emptied when it is encoded, not after the flush returns; nothing reads it in between.
- Shipper.Pusher.Live: which branch the select statement takes is an input, and the ticker's interval is not modelled. Events arrive between its turns; `Activities` and `Delivery.ConservationOverLives` treat those that arrive inside one.
- Rollback.RollbackPossible: assumes the backup directory holds only versioned files and at most one other backup at or above the running version; Rollback.BackupSurvivesIff says what happens otherwise.
- Shipper.Pusher.Send: the request itself, its headers and how a response becomes a status are not modelled; a send is an entry of the ledger and its reply an input.
- UriCounters.Counters.Add: counts are unbounded, because reaching 64 bits is out of reach in practice.
- UriCounters.RecentlyHitStays: assumes a clock that does not run backwards.
- Statements.ObservationsAccount: times are exact reals, so IEEE rounding and NaN are not covered; the same holds for the log histograms.
- The columns of pg_stat_statements that are only published, the query itself, the query texts and application names. A row that cannot be decoded is skipped and the next one read; a driver that ends the stream at such a row is a result that breaks off there.
- LogMetrics.FamilyMatchesStatus: parsing of log lines is not modelled; the number parsers are parameters.
- Paths.LabelIsSafe: `strings.ToLower` and the regular expressions are parameters; the latter are assumed to keep valid UTF-8 valid.
- Dpkg's package records (`Scan`, `parseSource`, `enrichAutoInstalled`): a projection of the parsed fields.
- Kernel.MarkKernelPackages: the regular expression that finds the ABI in a dpkg package name is a parameter.
- HostWrites.SortById: which of two equal ids comes first is left open, as by the library's sort.
- The push spool in `internal/topsrv/push.go`, a simpler version of the shipper's; the other collectors; configuration and discovery.
