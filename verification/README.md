# Sumer in Dafny

A model, in Dafny 4.11, of the parts of Sumer that decide what happened to a user's money records and
what the user is told about them, with proofs of what those parts promise. `dafny verify dfyconfig.toml`
checks everything; each row of the table below names the theorem or the verified operation that carries
its statement.

| file | what it models |
|---|---|
| `Fold.dfy`, `Tables.dfy`, `Sweep.dfy` | the fold, the tables as values, and one sweep as a state machine whose steps are whole transactions; a run is any sequence of steps, with crashes between them and any clock readings |
| `SweepRuns.dfy`, `SweepTheorems.dfy`, `SweepGate.dfy`, `SweepCrawls.dfy`, `SweepVantage.dfy`, `SweepVerdicts.dfy`, `SweepReports.dfy`, `SweepRepeat.dfy`, `SweepRefresh.dfy`, `SweepResume.dfy`, `SweepOversize.dfy` | what every run keeps, when a sweep may conclude that a record is gone, what its recorded verdict says of its pages, what the crawl rows, the vantage, the notes and the observation rows say, in terms of the run's own events, revival, idempotence, what a refresh appends, crash and resume, size drops |
| `Store.dfy`, `SweepLoops.dfy` | the same operations as they run: a store whose tables are updated in place, and the loops of `sweep_resource`, proved to compute the state machine's steps |
| `HostReads.dfy` | the host's coverage check and size cap on a history reply |
| `Mux.dfy`, `MuxHistory.dfy`, `Net.dfy`, `Endings.dfy`, `Connection.dfy`, `Taints.dfy` | the id lifecycle, and what a reply comes to, told from the events; the reader, supervisor, closer and pump as small steps with both locks explicit, and how each ending comes about; the sweeping thread holding the verdict across its commit, and which failures taint a refresh |
| `Cursors.dfy`, `Planning.dfy`, `Amounts.dfy`, `Paging.dfy`, `PageContents.dfy`, `Draining.dfy`, `Wallets.dfy`, `Replies.dfy`, `ChainMoves.dfy`, `AdapterResume.dfy`, `AdapterReplies.dfy`, `AdapterSweep.dfy`, `AdapterRefresh.dfy` | the bitcoin adapter: cursors, the plan, what a transaction is worth, the byte-budget cut and what a page says of each record, paging a whole snapshot, `sync`, one reply's budget, a resume over a chain that moved, and the adapter under the sweep |
| `Codec.dfy` | the incremental JSON-Lines framer |
| `Money.dfy`, `Digits.dfy` | exact decimal amounts |
| `Calendar.dfy`, `Instants.dfy` | civil dates over all integers, and timestamps as section 5.6 of RFC 3339 writes them |
| `Balances.dfy` | balance reads, freshness, and what a balance line shows |
| `Base.dfy` | options, results, and the bytewise order of strings |

Modelling decisions. Byte strings are `string`, one character per byte (bytes proper in `Codec`).
`content_hash` is an injective function of what the adapter authored (core/store/src/hash.rs:61-111): the
receipt time, the staleness and the provenance's own adapter, provider and surface are not in it, and
equal hashes are equal `Content`. `fold_order_key` orders by receipt time as text, then surface, then arrival.
Serialized sizes, UTF-8 validity and JSON validity are parameters: every theorem holds for any of them.
The provider's listings, the clock, the spawned process and the scheduler are parameters or events. A
`BTreeMap` the adapter iterates is the ascending sequence of its values. SQLite gives what the design
takes from it: a transaction is one step, and the UNIQUE key may refuse a row (and is proved never to).

Where the code and its own comments differ, the code is modelled. `Cursor::parse` says it rejects what
the adapter could not have issued; it also accepts a height with a plus sign or leading zeros, and
`Cursors.EncodeParse` states exactly when a parsed text is printed back unchanged. `instant` has no value
for a leap second, for a day its month does not have and for a fraction finer than a nanosecond, and for
no other valid timestamp (`Instants.InstantDefinedIff`). A host shutdown that comes before the reader's
kill request, any latched reason and the end of the reader's drain takes the kill channel, and a
connection already caught then ends with no reason latched (`Connections.ShutdownHidesTheReason`) or as
crashed (`Connections.LateShutdownHidesTheReason`); a write that times out before any reason is latched
can end it as crashed (`Connections.WriteTimeoutHidesTheReason`). `Connections.CaughtNeverCrashed`
excludes exactly these; later shutdowns, such as the one every dropped handle performs, and later
timeouts change nothing.

`ingest_page` says that dedup keeps a refresh from growing a row per transaction (core/store/src/sweep.rs:912-917).
`observed_at` is part of the content hash (core/store/src/hash.rs:3-8) and is read from the clock at every
crawl of the bitcoin adapter (adapters/bitcoin/src/main.rs:638-648), so two refreshes of one wallet in
different seconds do grow a row per kept record, although nothing about the chain changed:
`AdapterRefresh.RefreshRewritesTheWallet` states it with its exact condition. A resume is served by a
sync of its own, with its own time. What is said of crashes and resumes therefore compares reports
without that time; over a chain that moved in between, `ChainMoves.ResumeOverMovedChain` says which
transactions are told once, twice or not at all: a resume whose page ends on a confirmed item hands out a
cursor without a mempool mark, so the unconfirmed transactions already told are told again.

## Model

| member | source | states |
|---|---|---|
| `Connections.NoRetractionAfterViolation` | core/store/src/sweep.rs:648-716 | In every interleaving of reader, supervisor, closer, pump and sweeping thread: once a violation is published, or the refresh is tainted, no later commit on the connection adds a retraction |
| `Connections.LatchedOnce` | core/host/src/mux.rs:385-436 | Over every interleaving, terminal reason and verdict each keep their first value |
| `Connections.ViolationIsPublished` | core/host/src/mux.rs:409-424 | Whenever the inner lock is free, a violation as terminal reason has a published verdict |
| `Connections.CaughtNeverCrashed` | core/host/src/process.rs:181-213 | Unless a shutdown came before the reader's kill request, any latched reason and the end of the drain, or a write timed out before any latched reason: once the reader published a violation the connection is never latched as crashed, and a finished supervisor means a violation is latched |
| `Connections.ShutdownHidesTheReason` | core/host/src/process.rs:205-212 | The first exclusion is needed while the child runs: from any such state, a schedule in which the published violation never becomes a terminal reason |
| `Connections.LateShutdownHidesTheReason` | core/host/src/process.rs:189-204 | It is needed while the reader is being joined too: from any such state, a schedule in which a connection already caught ends as crashed |
| `Connections.WriteTimeoutHidesTheReason` | core/host/src/mux.rs:771-781 | The second exclusion is needed: from any state with nothing latched, a schedule with such a timeout in which a connection already caught ends as crashed |
| `Connections.LocksAreReleased` | core/host/src/mux.rs:398-408 | The verdict and inner locks cannot deadlock: from every reachable state, whoever holds them, at most five steps of the threads involved leave both free |
| `Connections.StepSweeps` | core/store/src/refresh.rs:217-284 | Every sweep begun under a taint carries it in its gate; the store's invariant survives each step of the sweeping thread |
| `Taints.TaintedIff` | core/store/src/sweep.rs:195-223 | Over every interleaving: a refresh is tainted exactly when, earlier on its connection, a read failed with `invalid_request` or a protocol violation, or a final commit found a violation published |
| `Taints.HonestFailuresSpare` | core/store/src/sweep.rs:214-223 | A timeout, a crash, a failed spawn, exhausted ids and every other error code leave the taint and the connection as they were |
| `Taints.BrokenReplyEndsRetractions` | core/store/src/refresh.rs:217-284 | After a reply that broke the contract no later sweep of the connection retracts anything |
| `Taints.PageCommits` | core/store/src/sweep.rs:648-716 | Undisturbed, a page that is not the last commits at once, and the last under the violation the verdict holds then, which taints the refresh; the lock is let go |
| `Nets.StepKeeps` | core/host/src/mux.rs:824-891 | Each step of reader, supervisor, closer and pump keeps the lock, latch and kill-channel invariants, and changes no verdict the sweeper holds |
| `Nets.FinishRefinesMux` | core/host/src/mux.rs:385-436 | The lock-by-lock `finish` has exactly the multiplexer's effect on both latches; a losing one changes neither |
| `Endings.NothingIsInvented` | core/host/src/process.rs:181-213 | Over every interleaving: a latched reason has its cause in the run: a frame the reader judged, a drain or a close that timed out, the status the child exited with, or a write that timed out; and so has a published violation |
| `Endings.FirstCallLatches` | core/host/src/mux.rs:385-436 | The first whole call of `finish` latches its own reason, publishes it if it is the first violation, and leaves both locks free |
| `Endings.CaughtEndsInViolation` | core/host/src/process.rs:205-212 | A violation judged while the child runs has it killed, and the connection ends in that violation, published |
| `Endings.CaughtOutranksExit` | core/host/src/process.rs:189-203 | So it does if the child exits first, with whatever status |
| `Endings.CleanExitIsACrash` | core/host/src/process.rs:189-203 | A child that exits after a clean stream has crashed with its status, and nothing is published |
| `Endings.HeldOpenIsAViolation` | core/host/src/process.rs:192-201 | An output still open after the exit is a violation, whatever the status |
| `Endings.CloseTimeoutIsAViolation` | core/host/src/lib.rs:459-478 | A close that times out ends in what the child did wrong, told by whether it has exited |
| `Endings.WriteTimeoutIsACrash` | core/host/src/mux.rs:771-781 | A write that times out first ends the connection as crashed and asks for the kill |
| `Endings.ShutdownLeavesNoReason` | core/host/src/process.rs:205-212 | A deliberate shutdown ends with no reason |
| `Endings.ClosedChannelLeavesNoReason` | core/host/src/process.rs:205-212 | And so does a kill channel found closed |
| `Multiplexing.RunKeeps` | core/host/src/mux.rs:330-436 | Over every run the slots are exactly the ids below the counter, a waiter has been sent one thing if its slot is answered and nothing otherwise, and a violation reason has a verdict |
| `Multiplexing.IdsNeverReused` | core/host/src/mux.rs:330-337 | Over every run the ids handed out are 0, 1, 2, ... in order; at the end of the counter none is issued and nothing changes |
| `Multiplexing.MissingSlotUnreachable` | core/host/src/mux.rs:354-377 | A reply is refused as unknown exactly when its id was never issued; the branch for a missing slot cannot be reached |
| `Multiplexing.RunSettles` | core/host/src/mux.rs:342-377 | A longer run never returns a slot to pending, takes back a delivery, or changes a latch |
| `Multiplexing.WaiterHearsOnce` | core/host/src/mux.rs:366-372 | A waiter is sent at most one delivery ever: a reply some frame sent to that very id, or the connection's one terminal reason |
| `Multiplexing.FinishLatches` | core/host/src/mux.rs:410-435 | A losing `finish` changes nothing; the winner leaves no slot pending, and publishes its violation unless one was already published |
| `Multiplexing.Mux.IssueId` | core/host/src/mux.rs:330-337 | The in-place counter and slots follow the specification; a fresh id, or none at exhaustion |
| `Multiplexing.Mux.Expire` | core/host/src/mux.rs:342-347 | Only a pending slot is tombstoned |
| `MuxHistory.OutcomeIff` | core/host/src/mux.rs:354-377 | Over every run, told from its events: a reply is delivered exactly when its id was issued and nothing has decided its waiter's fate, and then the waiter has been sent that frame; discarded exactly when the deadline came first; a duplicate exactly when a reply or the connection's end did; unknown exactly when never issued |
| `MuxHistory.WaiterHears` | core/host/src/mux.rs:366-435 | A waiter has been sent exactly what the event that decided its fate brought it; a deadline brings nothing |
| `MuxHistory.LatchesAreFirst` | core/host/src/mux.rs:385-486 | The terminal reason is that of the first end, the verdict the violation published first |
| `Multiplexing.Mux.DeliverFrame` | core/host/src/mux.rs:354-377 | The four outcomes of a reply, with the new state, as the specification behind `MuxHistory.OutcomeIff` has them |
| `Multiplexing.Mux.FinishWith` | core/host/src/mux.rs:385-436 | The loop over the slots answers every pending waiter; first reason wins |
| `Multiplexing.Mux.Record` | core/host/src/mux.rs:481-486 | The first recorded violation stays |
| `SweepTheorems.RunNumbersRevisions` | core/store/src/sweep.rs:414-450 | Over every run each key's stored revisions are 1..n in insertion order, every retraction names a revision in 1..n, and replay gives every row its own revision back |
| `SweepTheorems.RunNeverRefused` | core/store/src/schema.rs:139-139 | From any reachable state and for any page, the UNIQUE key refuses no append |
| `SweepTheorems.RunHasHeadMeta` | core/store/src/sweep.rs:426-450 | Over every run, each chain the sweep in hand was not told about has the metadata of the row the fold calls its head |
| `SweepRuns.RunKeeps` | core/store/src/sweep.rs:349-743 | The whole invariant (rows, retractions, cursors, in-memory fold equal to the replay) holds after every sequence of sweeps, pages, failures and crashes |
| `SweepRuns.PageKeeps` | core/store/src/sweep.rs:557-743 | One page, whatever it says, keeps the invariant and is never refused |
| `SweepRuns.IngestPageKeeps` | core/store/src/sweep.rs:927-1002 | Ingesting a page keeps the fold equal to the replay of the rows, loses no stored fact, and adds rows only for reported ids |
| `SweepRuns.BeginKeeps` | core/store/src/sweep.rs:349-462 | Opening a crawl and replaying the store establishes the invariant |
| `SweepRuns.ConcludeKeeps` | core/store/src/sweep.rs:648-716 | The closing section of the final transaction keeps it |
| `SweepGate.CompleteIffEveryPageSound` | core/store/src/sweep.rs:264-303 | Over every run, a sweep that reaches its final page is recorded complete exactly when it began at the start, every page it read was fetched, exact, free of anonymous degrades and foreign provenance, the last one drained, a derivation was declared, and no violation was known before it or at its commit |
| `SweepGate.ReasonIsTrue` | core/store/src/sweep.rs:264-303 | The recorded reason is true of the pages the sweep read and the first in the gate's order: everything before it held; an unfetched page is named by its number and outcome, and it is the first |
| `SweepCrawls.BeginsAtCursorIff` | core/store/src/sweep.rs:829-841 | Over every run: a sweep begins at a cursor exactly when a resume was asked for and some undrained crawl row of the resource holds it under the sweep's own derivation and fingerprint; its row says so, and no other row of the resource keeps a cursor |
| `SweepCrawls.RunningRow` | core/store/src/sweep.rs:718-742 | While a sweep runs its row says where it began, under which rules, and holds the point at which its committed pages could be taken up again |
| `SweepCrawls.CrashedCrawlIsTakenUp` | core/store/src/sweep.rs:718-745 | A crash loses nothing committed; resumed under the same rules, the next sweep begins where the committed pages left off |
| `SweepCrawls.FailureIsRecorded` | core/store/src/sweep.rs:465-503 | A failed read, a page without the resource's status and a page beyond the limit end the sweep with that reason and page number on its row, its resume point kept and nothing else changed |
| `SweepCrawls.FinalRow` | core/store/src/store.rs:404-424 | The row after the final page: drained exactly when that page is the last there is, and only then without its resume point |
| `SweepVantage.VantageIsLastComplete` | core/store/src/sweep.rs:683-704 | Over every run: the vantage a resource stores is the provider of its last sweep recorded complete, and none if there was none |
| `SweepVantage.RulesAreLastConcluded` | core/store/src/sweep.rs:682-704 | Its fingerprint, and the adapter's derivation, are those of the last sweep that reached its final page, complete or not |
| `SweepVerdicts.RetractsIff` | core/store/src/sweep.rs:1016-1204 | Over every run: a sweep retracts a record exactly when it is recorded complete, the resource was not last read completely from another provider, some page reports something or the empty sweep was confirmed, no page reports or names the record, and its head row is live and not before the history's start |
| `SweepVerdicts.NewVantageRetractsNothing` | core/store/src/sweep.rs:1034-1062 | The first sweep from another provider retracts nothing, and moves the vantage exactly when it is complete |
| `SweepVerdicts.LiveIffHeadRow` | core/store/src/sweep.rs:1239-1263 | A record is live exactly when its last row by receipt time, surface and revision is active and of the resource, and no retraction is at or above its number of rows |
| `SweepVerdicts.RetractionTells` | core/store/src/sweep.rs:1143-1163 | Over every run: a retraction row names its own adapter and crawl, the record's number of rows, and the difference between the sweep's rules and those its head row was last seen under |
| `SweepVerdicts.NotesIff` | core/store/src/sweep.rs:1034-1204 | Over every run: which notes a final page leaves, kind by kind, at most one a kind, and no others |
| `SweepReports.ReportsAreRows` | core/store/src/sweep.rs:927-1002 | Over every run: once a page commits, each observation of the resource it carried is on record field by field, last seen by this crawl under its rules, and the only new rows are such observations |
| `SweepReports.OnlyPagesWriteRows` | core/store/src/sweep.rs:927-1002 | Nothing but a page that commits writes an observation |
| `SweepReports.PageRecords` | core/store/src/sweep.rs:905-1002 | The page's counts of new, revised and unchanged records are what it did to the rows |
| `SweepTheorems.RetractsExactlyMissing` | core/store/src/sweep.rs:1016-1204 | A sweep retracts a record exactly when it is licensed (gate open, vantage unset or unchanged, sweep non-empty or confirmed or nothing live) and the record is live in its resource, unreported, not exempt and not before the history's start |
| `SweepTheorems.ConcludedRow` | core/store/src/sweep.rs:1143-1163 | Each retraction row names its own adapter, crawl and the chain's highest revision |
| `SweepTheorems.RetractionBuriesOnlyMissing` | core/store/src/sweep.rs:1222-1263 | Afterwards no retracted record is live, and no other key's liveness changed, in any resource or adapter |
| `SweepTheorems.ReasonIsHeadRows` | core/store/src/sweep.rs:1143-1152 | The reason on a retraction compares this sweep's rules with those stored on the head row |
| `SweepTheorems.PredatesIffEarlier` | core/store/src/sweep.rs:1108-1141 | For all timestamps, whatever their fractions and offsets: a record is exempt for predating the history exactly when either time has no instant or the record's exact time is the earlier |
| `SweepTheorems.UnorderableIsExempt` | core/store/src/sweep.rs:1126-1141 | A leap second, a day its month does not have or a fraction finer than a nanosecond, on either side, exempts the record; with no reported start nothing is exempt |
| `SweepTheorems.FinalPageConcludes` | core/store/src/sweep.rs:557-716 | A final page always commits, as one transaction, its rows and its conclusions |
| `SweepTheorems.OnlyFinalCommitConcludes` | core/store/src/sweep.rs:559-569 | Over every run, a step that adds a retraction or marks a crawl drained is the final page's commit, under a license, of that sweep's own crawl |
| `SweepTheorems.AppendOutranks` | core/store/src/sweep.rs:975-1000 | An observation that does not dedup, as none does on a buried key, appends one row, and the chain's highest revision then exceeds every retraction of its key |
| `SweepTheorems.RevivalOutranks` | core/store/src/sweep.rs:937-1000 | Over every run: after any page commits, in a complete or a partial sweep and whatever the receipt times, every record it reported has its chain's highest revision above every retraction, its own sweep's included |
| `SweepTheorems.RevivalSettles` | core/store/src/sweep.rs:918-926 | If its content equals the head's, that one row settles it, even when a backwards clock keeps the old head |
| `SweepTheorems.SettledAppendsNothing` | core/store/src/sweep.rs:951-974 | Later identical ingests, any number, append no row |
| `SweepRepeat.RepeatedSweepChangesNothing` | core/store/src/sweep.rs:927-1204 | A complete sweep repeated with the same content, in any pages: no observation appended, nothing retracted, every record's liveness unchanged |
| `SweepRepeat.FirstSweepRests` | core/store/src/sweep.rs:1016-1204 | A complete sweep whose reports sort last leaves every reported record settled and nothing a repeat could still retract |
| `SweepRepeat.RestedRepeat` | core/store/src/sweep.rs:927-1002 | From such tables a sweep with the same content writes no fact |
| `SweepRefresh.RestedRefresh` | core/store/src/sweep.rs:927-1204 | From such tables a sweep that reports the same records once each appends one row for every report whose content moved, in order, and no other; and it retracts nothing while it names as dropped what the first one named |
| `SweepRefresh.RefreshAppendsTheChanged` | core/store/src/sweep.rs:912-1002 | Two whole sweeps, in any pages: the second appends exactly the reports whose content differs from the first's |
| `SweepResume.ResumeHasNoGap` | core/store/src/sweep.rs:829-841 | After any run, crashes and failed reads included, if the pages read since a sweep of the resource last began at the start are exact: what is committed since then, followed by what the adapter has left to say from the stored cursor, is the whole history, the time of each crawl aside; a resume asks from exactly that cursor. Earlier sweeps may have read anything |
| `SweepResume.DrainedMeansWholeHistory` | core/host/src/paging.rs:79-98 | When such a sweep's last page commits, after any number of crashes, failed reads and resumes, exactly the whole history has been committed since the start, the time of each crawl aside |
| `SweepResume.LastPageDecides` | core/host/src/paging.rs:79-98 | Whatever pages a read had, the last decides where it would restart: its `next` if exact, the original start otherwise |
| `SweepResume.OneCursorPerResource` | core/store/src/store.rs:362-444 | Over every run, at most one crawl of a resource holds a cursor; it is the newest and has not drained |
| `AdapterResume.AdapterIsExact` | adapters/bitcoin/src/map.rs:667-745 | Every page the bitcoin adapter serves is exact: its observations followed by what remains from its cursor are what remained before |
| `AdapterResume.FreshSyncIsExact` | adapters/bitcoin/src/main.rs:638-648 | A page served from a fresh sync that found the same chain is exact for the history the first sync began |
| `AdapterResume.CrashesLoseNothing` | core/store/src/sweep.rs:557-743 | Host and adapter together: if the chain stayed the same since a sweep of the resource last began at the start, whatever it was before, each page from any sync of it, with any budgets, crashes and failed reads, a drained sweep has committed since then the adapter's whole plan minus omitted records, once and in order |
| `AdapterResume.ClockAlone` | adapters/bitcoin/src/main.rs:329-337 | Two syncs of one chain at different seconds plan the same records, kept or omitted alike, and differ in nothing but the time |
| `AdapterResume.ResumesReadTheClock` | adapters/bitcoin/src/source.rs:137-146 | The same of a live wallet whose every resume reads the clock anew |
| `AdapterReplies.ReplyAnswers` | adapters/bitcoin/src/main.rs:594-736 | A successful reply to any request, filtered by the host for one of its resources, is the adapter's answer within what the queries before it left, exactly when its wallet is known, none of them was rate limited and a snapshot could be had; otherwise an entry without a page and no observation |
| `AdapterReplies.SharesHeard` | core/store/src/sweep.rs:532-543 | Of all observations of a reply, the host's resource filter keeps exactly the share of its own resource |
| `AdapterReplies.EntryTells` | adapters/bitcoin/src/main.rs:717-731 | A page's entry tells the host exactly which records the page moved past without showing, and their sizes |
| `AdapterSweep.PlannedIsNeverRetracted` | core/store/src/sweep.rs:1100-1107 | Over every run: a sweep whose pages are the adapter's answers from one snapshot, with any budgets and under the host's size cap, never retracts a record that snapshot's plan lists, emitted, omitted for size or dropped by the host |
| `AdapterSweep.OmittedIsNotRetracted` | adapters/bitcoin/src/map.rs:677-710 | Over every run and whatever snapshot each page came from: a record the adapter's cut omitted on any page of the sweep is not retracted by it |
| `AdapterSweep.EntryNamesOmitted` | adapters/bitcoin/src/map.rs:694-710 | The status entry of a page names every record its cut omitted |
| `SweepOversize.DegradesBlock` | core/store/src/sweep.rs:865-875 | Over every run: a record any page named as dropped is not retracted by that sweep, and one anonymous entry on any page blocks every retraction |
| `SweepOversize.OversizedIsNotAbsent` | core/host/src/lib.rs:847-918 | The same for records the host itself drops for size, and an adapter's anonymous entry blocks everything however many named ones the host adds |
| `HostReads.CheckStatusCoverage` | core/host/src/lib.rs:795-826 | Accepts exactly the replies with no resource twice and every requested one present |
| `HostReads.CoveredHasStatus` | core/host/src/lib.rs:786-794 | Under coverage a requested resource has one status, the one every reader finds |
| `HostReads.DropOversized` | core/host/src/lib.rs:847-868 | The loop keeps the fitting observations and appends one named entry per dropped record to its resource's first entry |
| `HostReads.CapWeakensNothing` | core/host/src/lib.rs:870-918 | Every dropped record is named; outcome, page, the adapter's named and anonymous entries are unchanged |
| `HostReads.CapDropsOversized` | core/host/src/lib.rs:847-918 | The cap drops exactly the connection's own records over the wire's limit, and adds to each resource's entry exactly its own dropped records with their sizes |
| `Storage.Store.OpenCrawl` | core/store/src/store.rs:362-394 | Earlier cursors of the resource are cleared and the crawl added, in one transaction |
| `Storage.Store.SetCrawlCursor` | core/store/src/store.rs:396-402 | Only the named crawl's cursor changes |
| `Storage.Store.FinishCrawl` | core/store/src/store.rs:404-424 | A drained crawl gives up its cursor; any other keeps it |
| `Storage.Store.ResumableCrawl` | core/store/src/store.rs:428-444 | The newest undrained crawl of the resource that holds a cursor |
| `Storage.Store.AppendObservation` | core/store/src/store.rs:700-770 | Appends unless the UNIQUE key is taken |
| `Storage.Store.StampSeen` | core/store/src/store.rs:772-800 | Only the named row's last-seen crawl and rules change |
| `Storage.Store.RetractionHighWater` | core/store/src/store.rs:828-848 | The grouped maximum buries a revision exactly when some retraction row does |
| `Storage.Store.SetResourceDefinition` | core/store/src/store.rs:317-332 | An absent provider leaves the stored vantage alone; a missing resource row is not created |
| `Storage.Store.UpsertResource` | core/store/src/store.rs:258-273 | A resource already known keeps its fingerprint and vantage |
| `Storage.Store.OpenBalanceRead` | core/store/src/store.rs:898-906 | A new read makes every earlier row of the adapter stale |
| `Storage.Store.CommitBalances` | core/store/src/store.rs:908-949 | One reply's lines are appended with the read's id |
| `Storage.Store.BalanceHistory` | core/store/src/store.rs:956-1022 | Every line of one category, oldest first |
| `SweepLoops.JudgePage` | core/store/src/sweep.rs:844-881 | The loop over degrade entries computes the gate and the exemptions of the specification |
| `SweepLoops.Admit` | core/store/src/sweep.rs:532-543 | Provenance is judged on every observation before the resource filter |
| `SweepLoops.IngestOne` | core/store/src/sweep.rs:938-1000 | Dedup against the head, asked of the highest revision, on the mutable fold and store |
| `SweepLoops.IngestPage` | core/store/src/sweep.rs:927-1002 | The page's loop computes the specification's page, or reports the refused row |
| `SweepLoops.DeriveRetractions` | core/store/src/sweep.rs:1016-1204 | The exemptions, the loop over the sorted live set and the notes compute `Derive` |
| `SweepLoops.Sort` | core/store/src/sweep.rs:1239-1263 | The live ids in bytewise order, each once |
| `SweepLoops.SweepRun.Record` | core/host/src/paging.rs:90-98 | Only an exact page moves the exact resume point |
| `SweepLoops.SweepRun.Absorb` | core/store/src/sweep.rs:489-555 | What one page does to gate, ids, resume state and position before anything is written |
| `SweepLoops.SweepRun.Conclude` | core/store/src/sweep.rs:648-716 | The closing section, with the verdict held, leaves the store exactly as `Conclude` says |
| `SweepLoops.SweepRun.OnPage` | core/store/src/sweep.rs:557-743 | One page of the loop is one step of the state machine |
| `SweepLoops.Begin` | core/store/src/sweep.rs:349-462 | Resume point, crawl, replay, head metadata and burials, as the state machine begins a sweep |
| `SweepLoops.SweepResource` | core/store/src/sweep.rs:349-750 | The whole loop ends with the store the state machine ends with, for any answers, and keeps the invariant |
| `Folding.Fold.Ingest` | core/host/src/fold.rs:88-120 | The pushed entry sinks to its place; the revision is the key's next, whatever the order |
| `Folding.Fold.HighestRevision` | core/host/src/fold.rs:148-152 | The largest revision, which is the chain's length |
| `Folding.SinkLast` | core/host/src/fold.rs:105-117 | Re-sorting after a push is an insertion by fold order |
| `Folding.IngestKeepsFold` | core/host/src/fold.rs:88-120 | Every chain stays sorted by fold order, numbered 1..n by arrival, and holds only its own key |
| `Folding.HighestIsLength` | core/host/src/fold.rs:139-152 | The revision liveness is measured against is the number of entries, not the head's |
| `Tables.ReplayReassigns` | core/store/src/store.rs:497-511 | Replaying stored rows rebuilds each key's chain, entry for row, with the stored revisions |
| `Tables.HighWaterBuries` | core/store/src/sweep.rs:1222-1226 | Buried means some retraction is at or above the revision |
| `Cursors.ParseEncode` | adapters/bitcoin/src/map.rs:305-338 | Every well-formed cursor parses back from its text |
| `Cursors.ParseAccepts` | adapters/bitcoin/src/map.rs:305-328 | Exactly which texts parse, and to what |
| `Cursors.EncodeParse` | adapters/bitcoin/src/map.rs:305-338 | A parsed text prints back unchanged exactly when its height is canonical |
| `Planning.PlanIsStillDue` | adapters/bitcoin/src/map.rs:587-635 | The plan from a cursor is exactly what is still due, strictly ascending in emission order |
| `Planning.BuildPlan` | adapters/bitcoin/src/map.rs:587-635 | The two accumulating loops and the sort compute the plan, or fail exactly when a due transaction cannot be rendered |
| `Planning.ActiveFailsIff` | adapters/bitcoin/src/map.rs:499-502 | A transaction cannot be reported exactly when its block time is outside years 0000-9999 |
| `Planning.ActiveTellsBlockTime` | adapters/bitcoin/src/map.rs:499-540 | The reported effective time reads back as the block time |
| `Planning.LocalIdIsInjective` | adapters/bitcoin/src/map.rs:197-207 | Two wallets sharing a transaction never share a local id |
| `Planning.SelfTransferCostsItsFee` | adapters/bitcoin/src/map.rs:449-464 | A transfer among one's own addresses nets to minus the fee |
| `Amounts.EachOutputCounts` | adapters/bitcoin/src/map.rs:449-456 | Wherever it stands, an output counts its value if its address is owned, and nothing otherwise |
| `Amounts.EachInputCounts` | adapters/bitcoin/src/map.rs:457-463 | So does an input, by the output it spends |
| `Amounts.DeltasAddUp` | adapters/bitcoin/src/map.rs:449-464 | What two wallets without a common address gain apart is what they gain together |
| `Amounts.PartiesPayTheFee` | adapters/bitcoin/src/map.rs:449-464 | However a transaction's addresses are divided among its parties, their deltas sum to minus its fee |
| `Amounts.ReportTells` | adapters/bitcoin/src/map.rs:466-540 | What is reported: the wallet's gain, never negative if it spends nothing; the fee exactly when it spends; a time exactly when there is a block time, and that second; a height only with its confirmation |
| `Wallets.PlanNamesEachRecordOnce` | adapters/bitcoin/src/map.rs:499-635 | A plan reports each record once, under a local id of its own, posted exactly when confirmed |
| `AdapterRefresh.RefreshRewritesTheWallet` | core/store/src/sweep.rs:912-917 | A complete sweep of a wallet repeated over the same chain: no row exactly when both syncs fell in one second or nothing is kept, otherwise one row for every kept record |
| `AdapterRefresh.SweepTells` | adapters/bitcoin/src/map.rs:587-745 | Whatever its pages, a drained sweep from the start reports exactly the kept records of its sync's plan, in order |
| `Paging.CutPage` | adapters/bitcoin/src/map.rs:667-745 | The loop computes the longest prefix of the plan the budget affords, after the two-step degrade, with the cursor of the last emitted item |
| `PageContents.PageSays` | adapters/bitcoin/src/map.rs:667-745 | A page says of every item it moves past exactly one thing: the record whole if it fits, cut down if only that fits, its name and size otherwise; and it is the longest run of items its budget affords |
| `Paging.PlanResumes` | adapters/bitcoin/src/map.rs:587-635 | Planning from a cursor the plan issued gives the rest of the whole plan and the same high-water mark |
| `Paging.DueAfter` | adapters/bitcoin/src/map.rs:351-370 | From any cursor over any sync, an emitted item's own cursor leaves due what sorts after it and, after a confirmed item, also the unconfirmed transactions the earlier mempool mark had passed over |
| `ChainMoves.SessionFromAnywhere` | adapters/bitcoin/src/map.rs:587-745 | A finished session from any cursor over any sync, whatever its budgets, emits the plan from that cursor, or, if a page before its last ended on a confirmed item, the plan from that cursor without its mempool mark |
| `ChainMoves.ResumeOverMovedChain` | adapters/bitcoin/src/map.rs:566-586 | A reader resumes over any later sync and finishes: its pages are one plan; a transaction is in neither the items read before nor that plan exactly when the cursor is past it now and was not past it, or it was not listed, before, and it is not unconfirmed with the mempool mark dropped; if nothing happened to it, it is told, and twice exactly when it is unconfirmed, had been told, and the mark was dropped |
| `ChainMoves.EmittedIff` | adapters/bitcoin/src/map.rs:587-635 | A transaction is among the items read so far exactly when the reader's cursor is past it |
| `ChainMoves.MinedBelowTheMarkIsMissed` | adapters/bitcoin/src/map.rs:577-581 | A miss: a pending transaction not read yet, mined below the mark before the resume |
| `Draining.PagesAreThePlan` | adapters/bitcoin/src/map.rs:587-745 | Any finished session of pages, whatever its budgets, emitted the whole plan minus omitted records, in order and once, and named every omitted record |
| `Draining.DrainTerminates` | adapters/bitcoin/src/map.rs:649-666 | With budgets of at least one largest observation, draining ends without error within one page more than there are items, with strictly increasing cursors |
| `Draining.SessionReads` | adapters/bitcoin/src/map.rs:667-745 | An unfinished session, from any issued cursor, has read a contiguous run of the plan and stands right after it |
| `Draining.PageIsExact` | adapters/bitcoin/src/map.rs:667-745 | A page's observations followed by all that remains from its cursor are all that remained before it |
| `Draining.IssuedCursorParses` | adapters/bitcoin/src/map.rs:353-370 | Every cursor a reader can hold survives its trip as text |
| `Draining.StarvedPageStandsStill` | adapters/bitcoin/src/map.rs:654-657 | A page that cannot afford the next observation emits nothing and hands back its own starting point |
| `Wallets.Sync` | adapters/bitcoin/src/wallet.rs:134-166 | Fails as the first address that fails does; succeeds exactly when every fetch did and every txid is one; keeps each transaction's winning copy; the mempool is exactly the unconfirmed ones |
| `Wallets.ConfirmedCopyWins` | adapters/bitcoin/src/wallet.rs:151-156 | The kept copy is confirmed exactly when some listed copy is |
| `Wallets.WinnerWins` | adapters/bitcoin/src/wallet.rs:151-156 | The kept copy is the last confirmed one listed, or the first of all if none is confirmed |
| `Wallets.ListedHolds` | adapters/bitcoin/src/wallet.rs:134-140 | What is read is exactly what either listing of any address names |
| `Wallets.SyncGivesSnapshot` | adapters/bitcoin/src/wallet.rs:159-166 | What `sync` returns is a snapshot the plan may rely on |
| `Replies.Budget.Reserve` | adapters/bitcoin/src/main.rs:214-218 | Every requested entry is paid for before any observation |
| `Replies.Budget.Charge` | adapters/bitcoin/src/main.rs:225-231 | An entry costs only what it grew beyond its reservation |
| `Replies.Budget.Page` | adapters/bitcoin/src/main.rs:239-242 | The lesser of what the reply has left and a page's cap |
| `Replies.PageWithinBudget` | adapters/bitcoin/src/map.rs:667-745 | A page spends at most its budget and reports exactly what it spent |
| `Replies.NoRepeats` | adapters/bitcoin/src/main.rs:404-416 | Accepts exactly the requests that name no resource twice |
| `Replies.Adapter.ReadOne` | adapters/bitcoin/src/main.rs:606-731 | One query fails the request exactly when it is malformed, its clock cannot be printed or its plan cannot be made; it comes to a page exactly when its wallet is known, no rate limit came before and a crawl is in hand for its cursor or its sync succeeds; otherwise its entry says why, and the crawls stay as they were |
| `Replies.Adapter.HistoryRead` | adapters/bitcoin/src/main.rs:594-736 | The request fails exactly when a resource is named twice or a query fails it, by the first that does; otherwise each requested resource, in order, gets its own entry and share within its own budget, and all observations fit what the frame leaves after every reserved entry |
| `Replies.EntriesComeFirst` | adapters/bitcoin/src/main.rs:199-231 | No observation is shown at the expense of an entry: with every reservation and what the entries so far grew beyond theirs, all observations so far fit the frame |
| `Replies.CursorStaysOnItsCrawl` | adapters/bitcoin/src/main.rs:632-715 | A reader that sends back its cursor is served from the very snapshot of its last page, whatever the provider would say now; one that starts over, or has drained its crawl, from a new sync |
| `Replies.OneQueryAffords` | adapters/bitcoin/src/main.rs:239-242 | A request for one resource has a whole page's cap to spend, which affords any one observation |
| `Replies.ReplyIsCovered` | core/host/src/lib.rs:795-826 | Such statuses always pass the host's coverage check |
| `Replies.LineFits` | adapters/bitcoin/src/main.rs:134-157 | No written line exceeds a frame and its LF; a reply that fits is written unchanged, and in place of any other an error addressed to the same id |
| `Codec.DecoderIsSplitting` | core/wire/src/codec.rs:79-108 | Under every chunking, frames, buffer and violation are those of splitting the whole input on LF and stopping at the first bad or oversize line |
| `Codec.ChunkingIsIrrelevant` | core/wire/src/codec.rs:22-25 | From any decoder state, the result depends only on the concatenated bytes |
| `Codec.OutputIsInput` | core/wire/src/codec.rs:79-137 | Frames with their LFs, then the buffer, are a prefix of the input, all of it without a violation; every frame is UTF-8 and JSON and fits; a violation says what is wrong with the line in the buffer; the buffer exceeds the cap by at most one byte |
| `Codec.FrameDecoder.Push` | core/wire/src/codec.rs:79-108 | The byte loop on the mutable decoder computes the specification and never rolls back a frame |
| `Codec.CleanStreamIff` | core/host/src/mux.rs:856-891 | The framer charges a stream with nothing exactly when it is a run of sound frames, each with its LF; envelope and id faults are judged after it |
| `Codec.WhatIsCharged` | core/host/src/mux.rs:856-891 | Any other stream is charged, after the hello, with what is wrong with its first bad line or with a last line that does not end, and before it with having spoken too soon |
| `Money.ParseAccepts` | core/money/src/amount.rs:60-154 | Parsing accepts exactly the grammar without signed zero within the length, digit and scale bounds, and reads the coefficient and scale it spells |
| `Money.OffsetIsFirstBadByte` | core/money/src/amount.rs:90-133 | The offset of a byte error of `parse` is exactly where the string stops being the beginning of any number of the grammar |
| `Money.ParseFormat` | core/money/src/amount.rs:292-317 | Parsing a printed amount gives back its coefficient and scale, for every amount that can exist |
| `Money.FormatParse` | core/money/src/amount.rs:292-317 | Printing a parsed string gives back the same bytes |
| `Money.AddIsExact` | core/money/src/amount.rs:176-190 | Exact rational addition at the larger scale; on one asset it fails exactly when the sum needs more than 128 digits |
| `Money.SubIsExact` | core/money/src/amount.rs:193-195 | Exact rational subtraction at the larger scale; across assets it fails as a mismatch, on one asset exactly when the difference needs more than 128 digits |
| `Money.NegIsExact` | core/money/src/amount.rs:201-203 | Exact negation, valid and its own inverse |
| `Money.CmpIsRationalOrder` | core/money/src/amount.rs:207-215 | The comparison is the order of the rational numbers; it fails exactly across assets |
| `Money.NormalizedIs` | core/money/src/amount.rs:232-246 | The normal form is the same number with no trailing zero left to strip |
| `Money.EqIffNormalFormsAgree` | core/money/src/amount.rs:319-340 | Two amounts of one asset are equal exactly when their normal forms coincide, so Hash agrees with Eq |
| `Money.Normalize` | core/money/src/amount.rs:232-246 | The stripping loop, with truncating division, computes the normal form |
| `Money.DigitsToInt` | core/money/src/amount.rs:276-284 | The accumulator loop computes a digit run's worth |
| `Money.FormatDecimal` | core/money/src/amount.rs:292-317 | The padding loop computes the printed form |
| `Calendar.CivilOfDaysIsReal` | core/host/src/time.rs:186-213 | Every integer day number is a real Gregorian date, and `days_from_civil` takes it back |
| `Calendar.RealDateRoundTrips` | core/host/src/time.rs:186-213 | Every real date of any year comes back from its day number |
| `Calendar.RoundTripIffReal` | core/host/src/time.rs:153-165 | A triple survives the round trip exactly when its month has that day, as section 5.7 of RFC 3339 requires |
| `Calendar.CivilIsTheCalendar` | core/host/src/time.rs:186-203 | Consecutive day numbers are consecutive dates, without end in either direction |
| `Calendar.EpochIsDayZero` | core/host/src/time.rs:186-203 | Day 0 is 1970-01-01 |
| `Calendar.CopiesAgree` | adapters/bitcoin/src/map.rs:248-259 | The adapter's truncating copy agrees everywhere with the host's |
| `Instants.InstantDefinedIff` | core/host/src/time.rs:74-169 | A valid timestamp has an instant exactly unless it is a leap second, not a real date, or finer than a nanosecond, and then it is the one its date, time of day, fraction and offset spell |
| `Instants.InstantIsTime` | core/host/src/time.rs:74-169 | That instant is the timestamp's exact time, fraction and offset included, to the last digit |
| `Instants.MomentsInOrder` | core/store/src/sweep.rs:1133-1136 | Comparing instants is comparing the numbers they stand for |
| `Instants.NanosExact` | core/host/src/time.rs:98-137 | The fraction is carried exactly |
| `Instants.ParseNumber` | core/host/src/time.rs:172-181 | The scanning loop reads a digit run's worth, or nothing |
| `Instants.ParseFraction` | core/host/src/time.rs:98-137 | The scanning loop reads the fraction's nanoseconds and where it ends |
| `Instants.PrintableIff` | adapters/bitcoin/src/map.rs:239-245 | A second can be printed exactly when its year is 0000-9999 |
| `Instants.PrintedInstant` | adapters/bitcoin/src/map.rs:239-245 | Reading back a printed second gives that second |
| `Balances.FreshIffLatestRead` | core/store/src/store.rs:956-1022 | Over every run of refreshes failing anywhere, a row is fresh exactly when the adapter's most recently opened read wrote it |
| `Balances.DeadRefreshLeavesNothingLive` | core/store/src/refresh.rs:74-85 | A refresh that dies before its balance commit leaves no line of that adapter live |
| `Balances.FigureSurvives` | core/store/src/render.rs:45-109 | A category that ever had a figure never renders unavailable, whatever later refreshes do |
| `Balances.ShownFigureIsNewest` | core/store/src/render.rs:45-109 | A shown figure is the newest stored one, with its own row; live exactly when that row is the latest, fresh and called live |
| `Balances.ShownIff` | core/store/src/render.rs:45-109 | Which of the five lines is shown, each exactly when: a balance the adapter has just looked at and does not know is unknown, never unavailable |
| `Balances.StoredAreCommitted` | core/store/src/store.rs:908-949 | Over every run: the stored balances are the committed lines, verbatim and in order, each under the adapter whose read was open |
| `Balances.LiveIsFresh` | core/store/src/render.rs:45-60 | What is shown as live was written by the latest read and called live by the adapter |

## Left out

- HTTP, corpus replay, configuration and state files, spawning processes: I/O around the modelled logic.
- SQL text and row decoding: the tables are values; text encodings of stored cursors and enums are not modelled.
- Tokio as such: channels, timers, deadlines, the semaphore and the outbound queue appear only as events that may happen; nothing is said about time.
- SHA-256: `content_hash` is taken as injective; fingerprints are opaque strings.
- serde shapes: decoding of frames into replies is not modelled; UTF-8 and JSON validity are parameters.
- 64-bit overflow of the day arithmetic, the arrival counter, revisions and read ids: integers are unbounded, except request ids and cursor heights, whose bounds matter and are modelled.
- `started_at`, `retracted_at`, discrepancy detail texts and report counters: recorded for people, read by no decision.
- The rest of `refresh`: the hello identity check, re-authentication flags, the order of adapters and the report; its balance reads are the events of `Balances` and its taint is the `taint` of `Connections`.
- Staleness stamping, `balances_read` on the adapter, `status_read`, `hello` and command lines.
- Envelope and id faults as a stream is read: `Multiplexing` models the id rules, `Codec` the framing; the JSON shape of an envelope is not modelled.
- The conformance suite and its fake adapters: test drivers.
- `SweepRepeat.RepeatedSweepChangesNothing`: asks that the first sweep's reports name each id once and sort last in their chains, as the design promises it only then.
