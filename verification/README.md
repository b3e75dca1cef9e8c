# pgmq: a verified model

A Dafny 4.11 model of pgmq, the message queue on Postgres: the SQL functions of the extension up to
version 1.11.2, and the parts of the Rust crate that install the extension and convert durations.
`dafny verify dfyconfig.toml` checks everything.

What is modelled, by module:

- `Ranking`, `Rows`, `Selection`: queue rows, FIFO groups, and the selection queries of the read
  functions as functions of the table. `ROW_NUMBER()` is a count of the rows before a row, so the
  theory of a cut at `qty` is proved once and used for all of them.
- `Engine`, `Queues`: one queue as a step machine, and the class whose methods change the tables in
  place and refine its steps. `Deliveries`, `GroupedReads`, `RoundRobin`, `Fifo`, `HeadReads` prove what
  the steps mean: which messages a read takes, and what every run keeps.
- `Meaning`: what each read takes and what each step does, said of the rows alone, without the selection
  queries: every read takes the one set that its order and its quantity allow. `SessionMeaning` says the
  same of statements in open transactions. The methods' contracts are in these terms.
- `Events`, `Sessions`, `SessionTheorems`: any number of open transactions on one queue, with row locks,
  `SKIP LOCKED`, waiting, advisory locks, commits and rollbacks in any interleaving. `RenewedLeases`,
  `RenewalRuns`, `HeadSessions`, `HeadOwnership`, `HeadOrder`, `RoundRobinSessions` and `FifoSessions`
  prove what the three grouped reads do there, and `SessionRuns` has two runs that break what one might
  expect.
- `DottedText`, `TopicRegex`, `TopicSegments`, `TopicGlobs`, `TopicRouter`: topic patterns, their compilation to
  regular expression text, its meaning on dot-separated segments, and the fan-out of messages.
- `Versions`, `Installer`, `UpgradePath`, `InstallerRaces`: versions, script names, script selection,
  and installers that race between the transaction that observes and the one that applies.
- `Notifications`, `Polling`, `Durations`: the notification throttle, the poll loop, and the clients'
  duration conversions.

Conventions:

- One SQL statement is one atomic step with one reading of the clock. The code calls
  `clock_timestamp()` once per row and condition, so times within one statement can differ by its
  running time. Times are microseconds. With other transactions open, `read_grouped` is not one step:
  it chooses its rows and locks the first ones of the groups in one step, and updates each chosen row in
  a step of its own, once no other transaction has that row locked.
- A batch of ids given to `delete`, `archive` or `set_vt` is a set: naming an id twice changes nothing.
- A read returns a map from id to row version; only `read_grouped_rr` promises an order.
- Functions that were redefined by later migrations are modelled in their latest form, except where
  the 1.9.0 form of `read_grouped` is compared with the 1.11.0 one. The lines cited for
  `read_grouped_rr` are those of 1.9.0; 1.10.0 repeats its query and adds `last_read_at`.
- In `Versions.ParseVersion`, `\d` is an ASCII digit: any other Unicode digit that the expression
  accepts fails in the conversion to `u32` that follows.

Where the code does not do what it or its documentation says, the model follows the code, and a lemma
says exactly when both agree:

- `docs/topics.md` says `#` matches zero or more segments (its table of examples says that `logs.#` does
  not match `logs`). The code, and the comment at line 86 of the 1.11.0 script, mean one or more
  (`TopicSegments.DocumentedMeaningIff`).
- `read_grouped` and `read_grouped_rr` skip invisible messages in the middle of a group, so order per
  group needs the absence of gaps (`Fifo.GroupedInOrderIffGapFree`, `Fifo.RrInOrderIffGapFree`), which
  delayed sends, `set_vt` and plain reads can break (`Fifo.DelayedSendIsSkipped`).
- The last query of `read_grouped` has a `FOR UPDATE SKIP LOCKED` that names no table and reads from a
  common table expression only, so it locks and skips nothing, and its update has no second look at `vt`.
  It waits for rows that another transaction has locked and then leases them again
  (`SessionRuns.GroupedReadRenewsALease`, `RenewedLeases.RenewsIffLeasedSince`). The README's promise of
  one delivery within a visibility timeout holds for the other reads, and for `read_grouped` exactly
  when no transaction that has renewed a lease commits (`RenewalRuns.SpacedIffNoRenewalCommits`), so always
  when it asks for one message at a time (`RenewalRuns.SingleReadsAreSpaced`).
- The embedded installer does not observe the installed version and therefore never upgrades
  (`UpgradePath.UnobservedInstall`, `InstallerRaces.EndsAtReleaseIff`).
- The conversion from chrono durations says that it never shortens, but it cannot see less than a
  millisecond, and it clamps (`Durations.ChronoNeverShorterIff`).
- Two open transactions can read heads of one group when a message older than the head that the first
  one has locked is committed in between (`SessionRuns.TwoHeadsOfOneGroup`; `HeadOwnership.OwnershipIsExact`
  has the exact condition).

## Model

| member | source | states |
|---|---|---|
| GroupedReads.GroupedTakesOldestGroupsFirst | pgmq-extension/sql/pgmq--1.10.1--1.11.0.sql:531-600 | for every table, clock, `qty` and set of locked rows, `read_grouped` chooses exactly the first `qty` messages of the eligible groups laid end to end in the order of their first visible message; a group is left out when its first visible message is locked |
| Meaning.GroupedTakes | pgmq-extension/sql/pgmq--1.10.1--1.11.0.sql:531-600 | for every table, clock, `qty` and locked rows, the rows that `read_grouped` chooses are exactly the set of `min(qty, available)` rows closed towards older groups and older messages, available being the visible messages of the groups whose smallest visible id exists and is not locked and has no invisible message of the group before it |
| Meaning.GroupedTakesAll | pgmq-extension/sql/pgmq--1.10.1--1.11.0.sql:531-600 | with room for all, it chooses every visible message of these groups, whatever their read counts and contents |
| Meaning.LocksFirstVisible | pgmq-extension/sql/pgmq--1.10.1--1.11.0.sql:531-552 | the rows it locks when it chooses are the smallest visible ids of the groups, those excepted that another transaction has locked |
| GroupedReads.LateralLimitNeutral | pgmq-extension/sql/pgmq--1.10.1--1.11.0.sql:572-598 | the `LIMIT` inside the lateral join never changes which rows the cut at `qty` picks |
| GroupedReads.V19CandidatesArePrefix | pgmq-extension/sql/pgmq--1.8.1--1.9.0.sql:202-222 | group by group the 1.9.0 candidates are a prefix of the 1.11.0 ones, with the same sort keys |
| GroupedReads.V19SameBatchesIffGapFree | pgmq-extension/sql/pgmq--1.8.1--1.9.0.sql:202-237 | the 1.9.0 and 1.11.0 queries choose the same batch at every `qty` if and only if no eligible group has a visible message behind an invisible one |
| Meaning.V19TakesUnobstructed | pgmq-extension/sql/pgmq--1.8.1--1.9.0.sql:172-222 | the 1.9.0 candidates are exactly the visible messages with no invisible one of their group before them, in groups whose smallest visible id is not locked |
| Ranking.FirstSize | pgmq-extension/sql/pgmq--1.10.1--1.11.0.sql:586-597 | the cut by `ROW_NUMBER()` holds `min(qty, number of rows)` rows |
| Ranking.FirstUnique | pgmq-extension/sql/pgmq--1.10.1--1.11.0.sql:586-597 | the cut is the only set of that size closed towards smaller sort keys |
| Ranking.FirstIsPrefix | pgmq-extension/sql/pgmq--1.8.1--1.9.0.sql:52-64 | filtering on `ROW_NUMBER() <= qty` gives exactly the first `qty` rows of any full listing in sort order |
| RoundRobin.CandidatesAreReady | pgmq-extension/sql/pgmq--1.8.1--1.9.0.sql:17-51 | the rows that `read_grouped_rr` ranks are exactly the visible messages of the groups whose oldest message is visible and whose advisory lock is free |
| RoundRobin.BatchSize | pgmq-extension/sql/pgmq--1.8.1--1.9.0.sql:37-64 | a batch holds `min(qty, visible messages of eligible groups)` messages |
| RoundRobin.BatchKeepsGroupOrder | pgmq-extension/sql/pgmq--1.8.1--1.9.0.sql:40-64 | a batch holds a prefix of each group's visible messages |
| RoundRobin.RoundRobinIsFair | pgmq-extension/sql/pgmq--1.8.1--1.9.0.sql:37-66 | if one group gets at least two messages more than another eligible group, the other has no visible message left over |
| RoundRobin.ReturnedInLayers | pgmq-extension/sql/pgmq--1.8.1--1.9.0.sql:52-79 | for any locked rows and blocked groups, the result lists the batch once, every group's n-th message before any group's (n+1)-th, older heads first within a layer |
| Meaning.RoundRobinTakes | pgmq-extension/sql/pgmq--1.8.1--1.9.0.sql:17-66 | the batch of `read_grouped_rr` is exactly the set of `min(qty, available)` rows closed towards higher layers and older groups, and it takes those of them that are not locked |
| Engine.ValidBatchAligned | pgmq-extension/sql/pgmq--1.10.1--1.11.0.sql:459-502 | after the length check the two `unnest` calls pair the i-th header with the i-th message and leave no padding row |
| Meaning.BatchChecks | pgmq-extension/sql/pgmq--1.10.1--1.11.0.sql:459-478 | a batch is refused for being empty, or else for a header count that is not its own, and for nothing else |
| Engine.UnnestPads | pgmq-extension/sql/pgmq--1.10.1--1.11.0.sql:494-495 | without the check, the two `unnest` calls give as many rows as the longer array has elements, the shorter one padded with NULL |
| Engine.InsertGains | pgmq-extension/sql/pgmq--1.10.1--1.11.0.sql:482-502 | an insert adds one unread row per message under the next ids, with its own body, header and `vt`, and changes no other row |
| Engine.StepConserves | pgmq-extension/sql/pgmq--1.4.4--1.4.5.sql:8-15 | every step keeps each id ever drawn in exactly one of queue, archive and removed ids; contents never change and the archive only grows |
| Engine.RunConserves | pgmq-extension/sql/pgmq--1.4.5--1.5.0.sql:610-630 | the same over every run |
| Engine.GoneForGood | pgmq-extension/sql/pgmq--1.4.4--1.4.5.sql:8-15 | an id that has left the queue never comes back in any run, purges included |
| Engine.ArchiveKeepsColumns | pgmq-extension/sql/pgmq--1.9.0--1.10.0.sql:439-495 | `archive` never meets a duplicate key, moves exactly the rows asked for that exist, and the archived row has every copied column for the rest of any run |
| Meaning.GroupNames | pgmq-extension/sql/pgmq--1.10.1--1.11.0.sql:534-534 | the group is the `x-pgmq-group` header, or the default group without it |
| Meaning.SelectedExactly | pgmq-extension/sql/pgmq--1.10.1--1.11.0.sql:617-655 | the selection of every read step is the only one that its order and its quantity allow |
| Meaning.StepDoes | pgmq-extension/sql/pgmq--1.4.0--1.4.1.sql:194-214 | every step does what it should to the rows it is about, row by row and column by column, and leaves the other rows, the id counter, the archive and the clock as they are |
| Meaning.RemovedForGood | pgmq-extension/sql/pgmq--1.4.0--1.4.1.sql:194-214 | what `delete`, `archive`, `pop` and `purge_queue` take away is in no later state of any run |
| Queues.Queue.Send | pgmq-extension/sql/pgmq--1.4.5--1.5.0.sql:610-630 | the new id is unused, the new row has the given content and time and is unread, and no other row changes |
| Queues.Queue.InsertRows | pgmq-extension/sql/pgmq--1.10.1--1.11.0.sql:494-496 | the insert that all sends share: one unread row per cell under the next ids, no other row changed |
| Queues.Queue.SendBatch | pgmq-extension/sql/pgmq--1.10.1--1.11.0.sql:505-515 | an empty batch and a wrong header count are refused in that order and change nothing; any other batch gets consecutive ids with the i-th header on the i-th message, and no other row changes |
| Queues.Queue.InsertBatch | pgmq-extension/sql/pgmq--1.10.1--1.11.0.sql:482-502 | the private insert without validation: padded rows, consecutive ids, no other row changed |
| Queues.Queue.Lease | pgmq-extension/sql/pgmq--1.10.1--1.11.0.sql:601-608 | exactly the selected rows are read once more, at this time, and hidden for the timeout; their other columns and the other rows stay; they are returned in their new version |
| Queues.Queue.Read | pgmq-extension/sql/pgmq--1.10.1--1.11.0.sql:617-655 | leases and returns exactly the oldest visible rows, `min(qty, visible)` of them, and changes no other row |
| Queues.Queue.ReadGrouped | pgmq-extension/sql/pgmq--1.10.1--1.11.0.sql:519-614 | leases and returns exactly the first `qty` messages of the groups it may serve, older groups first, and changes no other row |
| Queues.Queue.ReadGroupedRr | pgmq-extension/sql/pgmq--1.9.0--1.10.0.sql:61-142 | leases the first `qty` messages of the rotation, changes no other row, and returns the batch once in round-robin order |
| Queues.Queue.ReadGroupedHead | pgmq-extension/sql/pgmq--1.11.0--1.11.1.sql:14-57 | leases and returns exactly the oldest visible heads, `min(qty, visible heads)` of them, and changes no other row |
| Queues.Queue.Pop | pgmq-extension/sql/pgmq--1.10.1--1.11.0.sql:720-746 | removes exactly the oldest visible rows, `min(qty, visible)` of them, returns them as they were, and keeps the others |
| Queues.Queue.SetVt | pgmq-extension/sql/pgmq--1.10.1--1.11.0.sql:749-791 | re-times exactly the requested rows that exist, returns them, and changes nothing else |
| Queues.Queue.Delete | pgmq-extension/sql/pgmq--1.4.0--1.4.1.sql:171-215 | the requested rows are gone, the others are as they were, and the ids of those that existed are returned |
| Queues.Queue.Archive | pgmq-extension/sql/pgmq--1.9.0--1.10.0.sql:439-495 | the requested rows are gone from the queue and in the archive with all their columns, none of which was there; everything else stays |
| Queues.Queue.Purge | pgmq-extension/sql/pgmq--1.4.4--1.4.5.sql:2-17 | empties the queue, returns the row count and leaves the id counter alone |
| Deliveries.RunRecordsDeliveries | pgmq-extension/sql/pgmq--1.10.1--1.11.0.sql:642-649 | over every run `read_ct` counts the deliveries of a message since it was sent and `last_read_at` is the time of the latest |
| Deliveries.PlainReadTakesOldest | pgmq-extension/sql/pgmq--1.10.1--1.11.0.sql:630-641 | a plain read or pop takes the oldest visible messages that are not locked, `min(qty, available)` of them |
| Meaning.PlainTakes | pgmq-extension/sql/pgmq--1.10.1--1.11.0.sql:630-641 | the rows that `read` and `pop` take are exactly the oldest visible rows that are not locked, `min(qty, available)` of them |
| Meaning.HeadTakes | pgmq-extension/sql/pgmq--1.11.0--1.11.1.sql:26-43 | the rows that `read_grouped_head` takes are exactly the oldest visible absolute heads that are not locked, `min(qty, available)` of them |
| Deliveries.HeadReadTakesOldestHeads | pgmq-extension/sql/pgmq--1.11.0--1.11.1.sql:26-43 | a head read takes at most one message per group, only absolute heads, the oldest first, `min(qty, available)` of them |
| Fifo.GroupedInOrderIffGapFree | pgmq-extension/sql/pgmq--1.10.1--1.11.0.sql:531-600 | `read_grouped` chooses no message of a group without the earlier ones, at any `qty` and for any locked rows, if and only if no eligible group has a visible message behind an invisible one |
| Fifo.RrInOrderIffGapFree | pgmq-extension/sql/pgmq--1.8.1--1.9.0.sql:17-66 | `read_grouped_rr` does the same, for any locked rows and blocked groups, if and only if no group it may serve has a free visible message behind an invisible or locked one |
| Fifo.FifoRunsDeliverInOrder | pgmq-extension/sql/pgmq--1.10.1--1.11.0.sql:531-609 | in every run of undelayed sends, grouped reads of all three kinds with a timeout that is not negative, removals and clock steps, the invisible messages of each group stay a prefix sharing one `vt`, and no batch has a message without every earlier one of its group |
| Fifo.DelayedSendIsSkipped | pgmq-extension/sql/pgmq--1.10.1--1.11.0.sql:572-592 | with 1 visible, 2 delayed and 3 visible, both grouped reads deliver 3 without 2 |
| HeadReads.SmallerIdsNeverReturn | pgmq-extension/sql/pgmq--1.11.0--1.11.1.sql:26-43 | in any run whatever, once a message is head of its group no smaller id of the group is ever in the queue again |
| HeadReads.HeadDeliveriesNonDecreasing | pgmq-extension/sql/pgmq--1.11.0--1.11.1.sql:26-51 | head deliveries of one group are non-decreasing in `msg_id` over any run |
| HeadReads.HeldGroupNotServed | pgmq-extension/sql/pgmq--1.8.1--1.9.0.sql:25-36 | no grouped read of any kind serves a group whose oldest message is invisible |
| HeadReads.HeadLeasesItsGroup | pgmq-extension/sql/pgmq--1.11.0--1.11.1.sql:26-51 | from a head delivery until the message is removed, re-timed or times out, no grouped read of any kind, taken as a committed step, returns a message of its group |
| Sessions.OutcomeOk | pgmq-extension/sql/pgmq--1.10.1--1.11.0.sql:540-600 | a statement touches only rows no other open transaction has locked; each row it writes is new, or was visible and leased, or re-timed, or removed; choosing the rows of a `read_grouped` writes nothing, locks exactly the first visible rows of the groups that nobody has locked, and leaves the cut of visible rows to be updated |
| Sessions.TakenOk | pgmq-extension/sql/pgmq--1.10.1--1.11.0.sql:601-608 | `read_grouped` updates a chosen row only when no other transaction has it locked, leases it in the version it finds, visible or not, and skips it when it is gone |
| Sessions.NextKeepsInv | pgmq-extension/sql/pgmq--1.10.1--1.11.0.sql:628-649 | begin, statement, row update, commit, rollback and clock steps keep row locks exclusive and every row version explained by the events of its message |
| SessionMeaning.StatementsDo | pgmq-extension/sql/pgmq--1.10.1--1.11.0.sql:531-791 | every statement of an open transaction does what it should, row by row, to what its transaction sees, takes exactly the rows its query allows, locks exactly those and puts exactly its event on record, and leaves the committed rows and the other transactions alone |
| SessionMeaning.UpdateDoes | pgmq-extension/sql/pgmq--1.10.1--1.11.0.sql:601-608 | the update of one chosen row by `read_grouped` leases that row, if it is still there, and nothing else |
| SessionMeaning.WaitsExactly | pgmq-extension/sql/pgmq--1.10.1--1.11.0.sql:781-787 | a statement is held up by nothing but an unfinished statement of its own transaction or a lock that another open transaction has on a row it names |
| SessionMeaning.ViewExactly | pgmq-extension/test/expected/transaction_tests.out:36-61 | a transaction sees its own changes, and the committed rows otherwise |
| SessionMeaning.CommitDoes | pgmq-extension/test/expected/transaction_tests.out:36-61 | a commit makes the pending versions the committed ones and leaves every other row and transaction |
| SessionMeaning.OtherActionsDo | pgmq-extension/test/expected/transaction_tests.out:36-61 | a rollback drops a transaction and nothing else, a new one has nothing, and waiting only moves the clock |
| SessionTheorems.CommittedDeliveriesSpaced | pgmq-extension/README.md:346 | over every interleaving, the committed deliveries of a message with no `set_vt` between them are at least the first one's timeout apart if and only if none of them renewed a running lease, and only `read_grouped` renews |
| SessionTheorems.OtherReadsKeepSpacing | pgmq-extension/sql/pgmq--1.8.1--1.9.0.sql:68-76 | without any condition, a plain, round-robin or head delivery comes after the timeout of the delivery just before it, and a message delivered only by these reads has all its deliveries spaced |
| RenewedLeases.TakeRecordsRenewal | pgmq-extension/sql/pgmq--1.10.1--1.11.0.sql:601-608 | a delivery counts as a renewal exactly when the row that `read_grouped` updates is at that moment hidden by the latest lease of it |
| RenewedLeases.RenewsIffLeasedSince | pgmq-extension/sql/pgmq--1.10.1--1.11.0.sql:593-608 | that is so if and only if, since `read_grouped` chose the row, another transaction has committed a delivery of it whose timeout has not passed, over any interleaving in between |
| RenewedLeases.HeadsAreNotRenewed | pgmq-extension/sql/pgmq--1.10.1--1.11.0.sql:540-552 | the first rows of the groups are locked when they are chosen, so their leases are never renewed |
| RenewedLeases.RunsWithoutRenewalsAreSpaced | pgmq-extension/sql/pgmq--1.10.1--1.11.0.sql:601-608 | over every run in which no `read_grouped` updates a message while a lease of it is running, its committed deliveries are spaced |
| RenewedLeases.CommittedRenewalBreaksSpacing | pgmq-extension/sql/pgmq--1.10.1--1.11.0.sql:601-608 | when a transaction that has renewed a lease commits, the committed deliveries of the message are not spaced, whatever happened in between |
| RenewalRuns.SpacedIffNoRenewalCommits | pgmq-extension/sql/pgmq--1.10.1--1.11.0.sql:593-608 | over every interleaving, the committed deliveries of a message are spaced if and only if no transaction of the run that has updated it while a lease of it was running commits |
| RenewalRuns.SingleIsHead | pgmq-extension/sql/pgmq--1.10.1--1.11.0.sql:540-600 | a `read_grouped` for at most one message chooses nothing but a first row that it has locked |
| RenewalRuns.SingleReadsAreSpaced | pgmq-extension/sql/pgmq--1.10.1--1.11.0.sql:593-608 | when every `read_grouped` of a run asks for at most one message, the committed deliveries of every message are spaced |
| SessionRuns.GroupedReadRenewsALease | pgmq-extension/sql/pgmq--1.10.1--1.11.0.sql:593-608 | a run of nothing but sends and `read_grouped` calls in which one message has two committed deliveries at the same time, each with a timeout of a minute |
| SessionTheorems.CommittedRemovalIsFinal | pgmq-extension/sql/pgmq--1.10.1--1.11.0.sql:729-740 | a committed pop, delete or archive is the last event of its message, and no session sees the message afterwards |
| SessionTheorems.HeldByOneTransaction | pgmq-extension/test/expected/transaction_tests.out:36-54 | no message is read, popped or re-timed by two open transactions at once |
| SessionTheorems.LockPinsRowThroughRun | pgmq-extension/sql/pgmq--1.10.1--1.11.0.sql:638-640 | while a transaction holds a row, nothing the others do changes its committed version |
| SessionTheorems.RollbackRestores | pgmq-extension/test/expected/transaction_tests.out:56-61 | a rollback leaves each row it had locked as it was committed, `vt` and `read_ct` included, and unlocked |
| HeadSessions.HeadReadOwns | pgmq-extension/sql/pgmq--1.11.0--1.11.1.sql:34-43 | a head read that delivers a committed message makes its transaction the owner of the group unless another one can commit an older message meanwhile |
| HeadSessions.OpenHeadReadsAreDisjoint | pgmq-extension/sql/pgmq--1.11.0--1.11.1.sql:26-43 | when a head read has delivered a committed message and nobody else can commit an older one of its group, no other transaction's head read returns that group, over any interleaving that does not end the first |
| HeadOwnership.OwnershipIsExact | pgmq-extension/sql/pgmq--1.11.0--1.11.1.sql:26-43 | a transaction keeps all others' head reads away from a group if and only if it has locked the oldest committed message and no other one can commit an older one while it is open |
| HeadSessions.ReachableIsSound | pgmq-extension/sql/pgmq--1.11.0--1.11.1.sql:34-43 | the states that these theorems are about include every state that sessions can reach |
| SessionRuns.TwoHeadsOfOneGroup | pgmq-extension/sql/pgmq--1.11.0--1.11.1.sql:26-43 | a run in which two open transactions have read heads of one group, the older of them committed after the first read |
| HeadOrder.HeadReadsKeepOrder | pgmq-extension/sql/pgmq--1.11.0--1.11.1.sql:26-43 | over every run of sessions whose sends commit in `msg_id` order, after a head read has delivered a committed message and unless its transaction is rolled back, no head read of any transaction delivers an older message of the group |
| HeadOrder.OrderedHeadReadOwns | pgmq-extension/sql/pgmq--1.11.0--1.11.1.sql:34-43 | in such runs a head read of a committed message owns its group without any further condition |
| RoundRobinSessions.OpenRoundRobinsAreDisjoint | pgmq-extension/sql/pgmq--1.8.1--1.9.0.sql:25-36 | round-robin reads of two open transactions return disjoint groups, over any interleaving that does not end the first, without any further condition |
| FifoSessions.OpenRoundRobinsDeliverInOrder | pgmq-extension/sql/pgmq--1.8.1--1.9.0.sql:17-79 | over every FIFO run of open sessions (undelayed sends that commit in `msg_id` order, round-robin reads before own sends, removals that commit at once, commits, rollbacks, clock steps), each group stays leased by a prefix sharing one `vt`, and no round-robin read delivers a message without every earlier committed one of its group |
| TopicRegex.CompileIsSubstitution | pgmq-extension/sql/pgmq--1.10.1--1.11.0.sql:9-20 | for every text the three nested replaces are one substitution per character |
| TopicRegex.CompiledTextParses | pgmq-extension/sql/pgmq--1.10.1--1.11.0.sql:12-19 | the compiled text reads back as the item sequence the pattern means, partial-segment wildcards included |
| TopicSegments.ValidKeyIffSegments | pgmq-extension/sql/pgmq--1.10.1--1.11.0.sql:28-74 | a routing key is accepted if and only if it has at most 255 characters and every dot-separated segment is a non-empty word |
| TopicSegments.ValidPatternIffSegments | pgmq-extension/sql/pgmq--1.10.1--1.11.0.sql:76-139 | the same for patterns: words and wildcards, no two wildcards in a row within a segment |
| TopicSegments.KeyErrors | pgmq-extension/sql/pgmq--1.10.1--1.11.0.sql:38-70 | each error of a routing key tells its first fault: no text, too long, a wrong character, an empty segment in front, at the end, or in between |
| TopicSegments.PatternErrors | pgmq-extension/sql/pgmq--1.10.1--1.11.0.sql:102-135 | the same for patterns, with two stars, two hashes and mixed wildcards in a row as further faults |
| TopicSegments.CompiledMatchesSegments | pgmq-extension/sql/pgmq--1.10.1--1.11.0.sql:9-20 | for whole-segment wildcards and every valid key, the compiled expression matches if and only if the segments match, `*` as one and `#` as one or more |
| TopicGlobs.CompiledMatchesSpans | pgmq-extension/sql/pgmq--1.10.1--1.11.0.sql:9-20 | for every pattern, wildcards inside segments included, and every key, the compiled expression matches if and only if the key's segments can be dealt out in order, one or more to each pattern segment, each share matching its pattern segment character by character |
| TopicGlobs.OneSegmentEach | pgmq-extension/sql/pgmq--1.10.1--1.11.0.sql:15-16 | a pattern segment without `#` takes exactly one segment of the key |
| TopicSegments.OptionalHashDiffers | docs/topics.md:40-45 | every pattern with a `#` segment beside others has a valid key that the documented meaning matches and the code does not |
| TopicSegments.DocumentedMeaningIff | docs/topics.md:40-45 | the code has the documented zero-or-more meaning if and only if the pattern has no `#` segment or is `#` alone |
| TopicRouter.Broker.BindTopic | pgmq-extension/sql/pgmq--1.10.1--1.11.0.sql:141-160 | adds the binding once, or reports the first failing check and changes nothing |
| TopicRouter.Broker.UnbindTopic | pgmq-extension/sql/pgmq--1.10.1--1.11.0.sql:162-191 | removes exactly that binding and says whether it was there |
| TopicRouter.Broker.SendTopic | pgmq-extension/sql/pgmq--1.10.1--1.11.0.sql:216-250 | reports the first failing check and changes nothing, or gives every matching queue the message as its next row, unread and hidden for `delay` seconds, leaves the other queues and rows, and returns the number of distinct queues that `test_routing` reports |
| TopicRouter.CheckSend | pgmq-extension/sql/pgmq--1.10.1--1.11.0.sql:225-233 | which check of `send_topic` fails first: the key's own error, then a missing message, then a negative delay; none exactly when all three are in order |
| TopicRouter.Broker.Deliver | pgmq-extension/sql/pgmq--1.10.1--1.11.0.sql:236-246 | the loop: each queue named receives the rows once, the others stay, and the count is the number of names |
| TopicRouter.Broker.SendBatchTopic | pgmq-extension/sql/pgmq--1.10.1--1.11.0.sql:351-386 | refuses a bad key or batch, in that order, and changes nothing; otherwise every matching queue receives the whole batch with the i-th header on the i-th message, the other queues stay, and the rows list the queues in the order of their names with their new ids in message order |
| TopicRouter.Broker.DeliverBatch | pgmq-extension/sql/pgmq--1.10.1--1.11.0.sql:371-382 | the loop of the batch fan-out, queues in the order of their names |
| TopicRouter.FanOutDelivers | pgmq-extension/sql/pgmq--1.10.1--1.11.0.sql:238-246 | each distinct queue named gains exactly the messages, once and in order; every other queue is untouched |
| TopicRouter.HiddenUntil | pgmq-extension/sql/pgmq--1.4.5--1.5.0.sql:600-606 | a message received is invisible at every clock reading before its time, and visible from then on |
| TopicRouter.FanOutConserves | pgmq-extension/sql/pgmq--1.10.1--1.11.0.sql:236-246 | a fan-out keeps the id accounting of every queue |
| TopicRouter.RoutedBySegments | pgmq-extension/sql/pgmq--1.10.1--1.11.0.sql:238-242 | a queue is served if and only if one of its bindings matches segment by segment |
| TopicRouter.RoutedBySpans | pgmq-extension/sql/pgmq--1.10.1--1.11.0.sql:238-242 | the same for bindings with wildcards anywhere |
| TopicRouter.TestRoutingExactly | pgmq-extension/sql/pgmq--1.10.1--1.11.0.sql:193-214 | `test_routing` refuses an invalid key for its own error, and otherwise reports exactly the bindings that can be matched with the segments of the key |
| Versions.NumberRoundTrip | pgmq-rs/src/install/version.rs:52-56 | printing and reading a number gives it back |
| Versions.DecimalNotation | pgmq-rs/src/install/version.rs:52-56 | digits are read in base ten, and numbers are printed without leading zeros |
| Versions.VersionRoundTrip | pgmq-rs/src/install/version.rs:45-64 | printing and parsing gives every version back, with or without `v` |
| Versions.ParseVersionExactly | pgmq-rs/src/install/version.rs:45-57 | a text is read as a version if and only if it is three numbers of 32 bits with dots in between, with or without a leading `v` |
| Versions.VersionOrderTotal | pgmq-rs/src/install/version.rs:66-86 | version order is total, antisymmetric, transitive and agrees with equality |
| Versions.VersionOrderIsNumeric | pgmq-rs/src/install/version.rs:66-86 | version order is the numeric order of the three parts put side by side |
| Versions.LastDashesFound | pgmq-rs/src/install/script.rs:45-50 | the greedy first group ends at the last `--` |
| Versions.ScriptNameRoundTrip | pgmq-rs/src/install/script.rs:41-57 | parsing recovers both versions from every name built from two versions |
| Versions.ParseNameExactly | pgmq-rs/src/install/script.rs:41-57 | a file name is read as a migration script if and only if it is `pgmq--`, a version, `--`, a version and `.sql` |
| Versions.InitNameIsNotParsed | pgmq-rs/src/install/script.rs:11-15 | the init script is never listed as a migration script |
| Installer.Target.ApplyScripts | pgmq-rs/src/install/sqlx.rs:74-97 | the transaction runs and records every unapplied script in order, or leaves the database as it was when a script fails or a name is already there |
| Installer.Target.InitMigrationsTable | pgmq-rs/src/install/sqlx.rs:23-32 | records the old version on an empty table only |
| Installer.Target.Observe | pgmq-rs/src/install/sqlx.rs:54-57 | nothing is observed exactly on an empty table; otherwise a recorded version that no recorded version exceeds |
| Installer.MaxAppliedIsHighest | pgmq-rs/src/install/internal.rs:47-50 | the maximum over the recorded versions in any order: one of them, and at least as late as each |
| Installer.Target.ApplyFetched | pgmq-rs/src/install/sqlx.rs:59-61 | applies what was fetched for an observation that may be stale by then |
| Installer.Target.InstallFromEmbedded | pgmq-rs/src/install/sqlx.rs:66-71 | applies what is fetched with no observation |
| Installer.SortIsStable | pgmq-rs/src/install/internal.rs:38-42 | the scripts are sorted by `from`, none lost or invented, equal ones in their old order |
| Installer.SortFiltered | pgmq-rs/src/install/internal.rs:38-42 | filtering before the sort is filtering after it |
| Installer.FetchExactly | pgmq-rs/src/install/embedded/mod.rs:54-78 | what is fetched is the init script and then exactly the directory's scripts from the observed version on, or from the release's own when nothing is observed |
| Installer.UnappliedExactly | pgmq-rs/src/install/internal.rs:33-43 | what is left to apply is sorted by `from` and has exactly the available scripts whose name is not recorded |
| Installer.InitRunsFirst | pgmq-rs/src/install/script.rs:25-38 | when the init script is to be applied it comes first, for any directory and observation |
| Installer.ApplyExactly | pgmq-rs/src/install/sqlx.rs:83-95 | the transaction succeeds if and only if all names are new and the init script, if any, comes first on an absent schema, and it then records every script in order |
| UpgradePath.ObservedIsCurrent | pgmq-rs/src/install/internal.rs:48-50 | the highest applied version is the version of the schema |
| UpgradePath.UpgradeSelection | pgmq-rs/src/install/embedded/mod.rs:54-78 | with an observation that is not ahead of the database, what is left to apply is exactly the chain from the database's version to the release's |
| UpgradePath.FreshInstall | pgmq-rs/src/install/embedded/mod.rs:69-75 | a fresh database ends at the release, by the init script alone |
| UpgradePath.UpgradeInstall | pgmq-rs/src/install/sqlx.rs:46-97 | an upgrade with an observation, even stale, ends at the later of both versions, and changes nothing when the release is not ahead |
| UpgradePath.UnobservedInstall | pgmq-rs/src/install/sqlx.rs:66-71 | without an observation an installed database is left alone, so it ends at the release if and only if it was there |
| InstallerRaces.CommitSettled | pgmq-rs/src/install/sqlx.rs:50-61 | what one commit does to an installed database whatever was committed since its observation |
| InstallerRaces.RacesKeepTheChain | pgmq-rs/src/install/sqlx.rs:46-97 | over every race of any installers of any releases no script runs on a schema it does not upgrade, applied names stay unique, and they form an unbroken chain ending at the schema's version |
| InstallerRaces.FreshEndsAtRelease | pgmq-rs/src/install/sqlx.rs:46-97 | whoever commits first on a fresh database ends at their release |
| InstallerRaces.EndsAtReleaseIff | pgmq-rs/src/install/sqlx.rs:46-97 | an installer ends at its release if and only if the database is there already, or it observed some version and the database is not ahead |
| InstallerRaces.RepeatChangesNothing | pgmq-rs/src/install/internal.rs:33-50 | observing and installing the same release again changes nothing |
| InstallerRaces.BaselineIsInstalled | pgmq-rs/src/install/sqlx.rs:23-32 | recording the old version makes an untracked database one that upgrades safely |
| InstallerRaces.UntrackedIsLeftAlone | pgmq-extension/sql/pgmq.sql:87-103 | on an existing schema with no record of the init script, every installer fails whatever it fetched and observed, and changes neither schema nor migrations table |
| InstallerRaces.BaselineDecides | pgmq-rs/src/install/sqlx.rs:23-32 | such a database is taken to a release that is not behind if and only if its old version is on record or it is there already |
| Notifications.Notifier.Enable | pgmq-extension/sql/pgmq--1.7.1--1.8.0.sql:45-79 | validates, then starts the throttle of the queue afresh and leaves those of other queues |
| Notifications.Notifier.Disable | pgmq-extension/sql/pgmq--1.7.1--1.8.0.sql:82-96 | removes the throttle of the queue and no other |
| Notifications.Notifier.Update | pgmq-extension/sql/pgmq--1.10.1--1.11.0.sql:325-347 | changes the interval of an enabled queue and forgets its last notification, or reports the first failing check |
| Notifications.Notifier.OnInsert | pgmq-extension/sql/pgmq--1.7.1--1.8.0.sql:17-42 | notifies if and only if the queue has a throttle whose interval is zero or has passed, and then records the time; otherwise nothing changes |
| Notifications.ThrottledIffEnabled | pgmq-extension/sql/pgmq--1.7.1--1.8.0.sql:25-39 | a queue has a throttle if and only if it has been enabled and not disabled since, whatever else happens to it and to other queues |
| Notifications.NotificationsSpaced | pgmq-extension/sql/pgmq--1.7.1--1.8.0.sql:25-39 | in every run over all queues with a monotone clock, two notifications of one queue with no effective enable or update between them are at least the interval in force apart, told by the events alone |
| Notifications.NotifiesIffElapsed | pgmq-extension/sql/pgmq--1.7.1--1.8.0.sql:25-39 | an insert notifies if and only if the queue has been enabled and not disabled since, and the interval in force has passed since the epoch and since every notification after the last enable or update, all told by the events |
| Polling.Poll | pgmq-extension/sql/pgmq--1.11.1--1.11.2.sql:15-31 | for any interval, zero included: returns the first non-empty batch read before the deadline if there is one, reads nothing after it, and gives up only after the deadline; with a positive interval at most `ceil(timeout / interval)` reads |
| Polling.PassesBound | pgmq-extension/sql/pgmq--1.10.1--1.11.0.sql:673-715 | the number of passes that fit before the deadline |
| Polling.DeadlineComes | pgmq-extension/sql/pgmq--1.10.1--1.11.0.sql:713-713 | with a positive interval the clock reaches the deadline within that many passes |
| Durations.StdRoundsUp | pgmq-rs/src/pg_ext/visibility_timeout_offest.rs:166-176 | seconds of a std duration: within `i32`, rounded up, never shorter unless clamped, clamped exactly above the range, at least one when not zero |
| Durations.StdMillisTruncates | pgmq-rs/src/adapters/helpers.rs:29-31 | milliseconds of a std duration: truncated, clamped exactly above the range |
| Durations.StdMonotone | pgmq-rs/src/adapters/helpers.rs:17-31 | both std conversions are monotone |
| Durations.ChronoRoundsAway | pgmq-rs/src/pg_ext/visibility_timeout_offest.rs:147-164 | seconds of a chrono duration: within `i32`, same sign as the milliseconds, rounded away from zero by less than a second when the milliseconds are within the range, and the nearer bound when they are not |
| Durations.ChronoMonotone | pgmq-rs/src/pg_ext/visibility_timeout_offest.rs:147-164 | the chrono conversion is monotone |
| Durations.ChronoNeverShorterIff | pgmq-rs/src/pg_ext/visibility_timeout_offest.rs:149-150 | the promise never to shorten holds if and only if the duration is within the `i32` range of seconds and its sub-second part is zero or at least a millisecond |
| Durations.HalfMillisecondIsDropped | pgmq-rs/src/pg_ext/visibility_timeout_offest.rs:151-154 | 500 microseconds become 0 seconds |

## Left out

- Conditional reads (`message @> ...`): the plain read is modelled with the default condition.
- A negative or NULL `qty` (Postgres raises an error or drops the limit) and negative ids: quantities and ids are natural numbers.
- The JSON type: bodies are opaque text, headers are the text that `->>` extracts.
- `bigint` and `integer` ranges of `msg_id`, `read_ct` and counts: numbers in the queue model are unbounded.
- MVCC snapshots within one statement other than the choice of `read_grouped`: `set_vt`, `delete` and `archive` wait until no other transaction has one of their rows locked and then see the rows as they are by then.
- Sessions.OutcomeOk: a step that has to wait is not possible until the lock is gone, and a rollback is possible at any time, so Postgres' own choice of a victim in a deadlock is not modelled; `archive` takes part as its `DELETE` half, and a sent batch as single sends; `TRUNCATE` does not take part.
- Advisory locks of `read_grouped_rr` beyond those of the groups it may serve: keys are hashes, which can collide, and the lock call stands in one condition with `h.vt <= clock_timestamp()`, so that Postgres may also lock groups whose head is not visible. Both only block more groups for others; the theorems of `RoundRobin` hold for any set of blocked groups.
- Fifo.FifoRunsDeliverInOrder: leaves out `set_vt`, plain reads, delayed sends and negative timeouts, which break the order, and takes each send as committed when its id is drawn and each read as one committed step. With open transactions the order is proved for head reads (`HeadOrder`) and round-robin reads (`FifoSessions`).
- FifoSessions.OpenRoundRobinsDeliverInOrder: leaves out removals that stay open (a row that is locked for removal is skipped, and later ones are delivered), reads of other kinds in the same run, and reads by a transaction that has uncommitted sends.
- GroupedReads.V19SameBatchesIffGapFree: compares the rows that both versions choose; both wait for locked rows in the same way.
- TopicSegments.CompiledMatchesSegments: covers wildcards that fill whole segments; `TopicGlobs.CompiledMatchesSpans` is the statement for wildcards anywhere.
- The regular expression engine of Postgres beyond what the compiler emits: characters, escapes, `.`, a negated one-character class, `*` and `+`, anchored at both ends.
- TopicRouter.Broker.SendBatchTopic: the order of names is any total order, in place of the database's collation.
- Deleting queues, with the bindings and throttles that go with them, and `meta` rows beyond a queue's existence.
- Installer.Target.ApplyScripts: a script is its name and the versions it leads from and to. The init script fails on a schema that is there; that a migration script can fail, and what its SQL does beyond the version, are not modelled, nor are missing files. The advisory lock makes each transaction one step.
- UpgradePath.UpgradeInstall: the releases' script directories are initial parts of one single upgrade path, as the repository's own test asserts.
- Notifications.Notifier.OnInsert: the trigger's queue name comes from the lower-cased table name, so the model is about lower-case queue names; it runs when the row is inserted, not deferred, and delivery to listeners is not modelled.
- Polling.Poll: a sleep takes at least as long as asked, and for an interval that is not positive the clock reaches the deadline at some check; what the reads return is any sequence of batches. In `read_with_poll` `stop_at` has no time zone, and the model takes it as an instant.
- Durations.ChronoRoundsAway: the truncation of `num_seconds` and `num_milliseconds` belongs to the chrono library and is taken from its documentation; the conversions from plain integers only clamp.
- Driver adapters, query templates, the command line tool, HTTP fetching, tracing, metrics.
- Partitioned and unlogged queue creation, indexes, grants, extension membership and the migrations before 1.0.
