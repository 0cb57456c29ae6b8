# Verified model of the Transmit delivery engine

Transmit accepts schedules (delayed, interval, cron), stores one transmission per
schedule, polls for what is due once per clock cycle, sends it, and then saves the
next occurrence or reschedules the failed one. This project models the occurrence
state machine, the batch scheduler and its two repositories, and proves what is
delivered, how often, when, and under which faults.

Check it with `dafny verify dfyconfig.toml` (Dafny 4.11).

## What the proofs say

The repository promises "fault-tolerant exactly-once delivery" (README.md:10). The
model follows the code and proves what that comes to for each repository.

**In memory**, one batch loop, any clock, any failing sends, other tasks storing
transmissions at any time:

- The successful sends of each id are occurrences 0, 1, 2, ... in order, up to its
  count, never more than planned, never before due (`MemorySafety.ExactlyOnce`). A
  failed send stays due.
- An untouched `Times(0)` interval or cron entry has a due time but no occurrence: it is
  polled whenever due, always filtered out, and never goes away. Take a due entry behind
  finite schedules, R sends still to come ahead of it and Z untouched `Times(0)` entries
  ahead of it that fall due by the end of the run. The batches that pass over it, times
  100 - Z, are at most R plus the failed sends meanwhile. When sends succeed, every run of
  more than R batches sends it if and only if Z < 100 (`MemoryProgress.WaitsExactlyWhen`).
  With 100 of them due, nothing behind them is ever attempted again. The validator
  accepts `Times(0)`, and `MemoryWitnesses.dfy` gives such a run from the empty store.
- A backlog that is entirely due drains within floor(R / (100 - Z)) + M batches, R being
  all sends to come, M the most for one entry, and Z the untouched `Times(0)` in it that
  fall due by the end; then each id has been sent exactly its planned occurrences. Every
  succeeding run of R + M batches drains it if and only if Z < 100.
- If due entries always fit a batch, sends succeed and polls are at most G apart, with G
  at most the interval, no occurrence is more than G plus one second late over the whole
  run. The second is the validator's age limit.

**On Postgres**, any number of workers, any interleaving, and any of these faults at any
point: a statement that fails, a statement that commits while its reply is lost, a failed
send, a crash:

- The transmitter is called at most once for each (id, transmission_count), and exactly
  once, successfully, for every occurrence that the log has moved past. Every call was for
  a row that a poll of the run returned, at that poll's clock reading. A finite transmission
  that the log shows as finished was sent exactly its planned number of times.
- A failed send is never retried, and one is enough to end any transmission
  (`ProtocolWitnesses.OneFailedSendIsTheEnd`). `reschedule` sets `is_locked = true` on
  rows where it is already `false` (src/repository_postgres.rs:127-131), although the
  scheduler's comment (src/scheduler.rs:242-245) shows that release was meant. Every
  reschedule that the scheduler issues leaves the whole table unchanged.
- Each id's top row is waiting, held by exactly one worker, finished, or stranded. The rows
  that each step strands are stated exactly; a run strands nothing if and only if it has
  no poll overflow, no `Times(0)`, no failed save or failing poll that locked rows, no
  reschedule (so no failed send resolved), no crash of a worker that holds something, and
  no wrap of a 32-bit count. What is stranded stays so, and the transmitter is never
  called for it again. Poll overflow strands because `LIMIT` applies after the
  `UPDATE` (src/repository_postgres.rs:83-101): of n due transmissions, one poll strands
  n - 100.
- The "latest entry" sub-query (src/repository_postgres.rs:86-94) hides exactly the rows of
  an id that carries a later `inserted_at`. Over a run it hides no unlocked due row from
  any poll if and only if each save that commits a further occurrence does so at or after
  the stamp of the row before. An occurrence saved at an earlier clock reading is never
  sent, however long workers poll.

The metrics of both repositories are determined: in memory each counter by the calls, the
batches and the store; on Postgres by the outcomes of the statements issued, a save or
store counting as done exactly when it committed with its reply and added its row.

The two polls differ at the boundary: Postgres takes `next < now`, memory `next <= now`.

## How the model is built

- `Model.dfy` is src/model.rs. Counts are 32-bit and wrap, as in the release build that the
  Dockerfile makes. A parsed cron expression is the map from a time to the next matching
  time; that its occurrences increase is proved.
- `Validation.dfy` says exactly which requests are accepted.
- `InMemory.dfy` and `Scheduler.dfy` are the in-memory repository and the scheduler as
  classes, each method proved against a function of the old state.
  What the outside decides is a parameter of each batch: its clock reading, the ids whose
  send fails (ids are distinct within a batch, so this covers every pattern), and what
  other tasks store at each await point. In-memory operations return Ok always, so the
  scheduler's branches for a failing repository are modelled on Postgres.
- `BatchEffect.dfy` shows that the interleaved loop equals one pass over the polled list.
  `MemorySafety.dfy`, `MemoryProgress.dfy`, `MemoryDrain.dfy` and `MemoryLateness.dfy` hold
  the theorems about whole runs; `MemoryWitnesses.dfy` shows that starvation is reachable.
- `Postgres.dfy` gives each SQL statement as a function on the table and as a method.
  `Protocol.dfy` is the transition system and `ProtocolProgress.dfy` says what can happen
  next in it; `ProtocolInvariant.dfy` and `ProtocolSafety.dfy` give its invariant;
  `ProtocolDelivery.dfy`, `ProtocolConservation.dfy`, `ProtocolQuery.dfy` and
  `ProtocolMetrics.dfy` hold the theorems; `ProtocolWitnesses.dfy` gives runs from the
  empty table that lose transmissions to a failed send, to poll overflow and to a clock
  that goes back; `Refinement.dfy` relates both repositories to one map.

## Model

| member | source | states |
|---|---|---|
| Model.NthIncreases | src/model.rs:200-214 | the occurrences of a cron schedule strictly increase, all come after `first_transmission_after`, and none follows a missing one |
| Model.NewIsConsistent | src/model.rs:21-37 | a new transmission is due when its schedule says, except exactly the planned `Times(0)`, which gets a due time although its schedule has no occurrence |
| Model.TransmittedIsConsistent | src/model.rs:42-57 | transmitting never drifts: the new due time is the schedule's for the new count; a finite schedule's count never overflows; a `Times(0)` is cleared |
| Model.TransmittedClosedForm | src/model.rs:42-57 | k transmissions in a row succeed iff the occurrences before exist, and then the state depends on k alone, not on when sends happened |
| Model.SendLimit | src/model.rs:110-149 | for all 32-bit n, a schedule planned n times can be transmitted at most max(n, 1) times, and completion is final |
| Model.FirstOccurrence | src/model.rs:21-37 | the first due time: the stated time, or for cron the first match after `first_transmission_after`, which exists iff there is a match; it is occurrence 0 unless none is planned |
| Model.OccurrenceRecurrence | src/model.rs:110-214 | from the first due time on, the due times as a recurrence: a delayed schedule has one, an interval adds itself, a cron schedule goes on to the first match after the previous one; all stop at the planned number |
| Model.DueTimesIncrease | src/model.rs:87-98 | due times strictly increase, and no occurrence follows a missing one, for all three kinds of schedule |
| InMemory.RepositoryInMemory.StoreTransmission | src/repository_in_memory.rs:25-35 | storing appends |
| InMemory.RepositoryInMemory.PollTransmissions | src/repository_in_memory.rs:37-55 | the loop that filters and stops at the batch size changes nothing and returns the due entries in insertion order, cut off at the batch size |
| InMemory.RepositoryInMemory.Save | src/repository_in_memory.rs:57-65 | the in-place loop overwrites every entry with the saved id and no other |
| InMemory.RepositoryInMemory.Reschedule | src/repository_in_memory.rs:67-73 | rescheduling changes nothing |
| InMemory.PollIsDuePrefix | src/repository_in_memory.rs:48-54 | a poll is the prefix of length min(cap, due) of the due entries in insertion order |
| InMemory.PollSelects | src/repository_in_memory.rs:42-54 | an entry is polled iff it is due and fewer than the cap are due before it |
| InMemory.OverwriteFrame | src/repository_in_memory.rs:57-65 | saving keeps length, order and distinct ids, changes only its own id, and commutes with transmissions pushed meanwhile |
| Scheduler.TransmissionScheduler.Schedule | src/scheduler.rs:37-126 | a request is accepted iff its schedule and its message pass the two validators, and then stores one new transmission, counts it and returns its id; a refused one changes nothing and is told the first check that failed |
| Validation.AcceptedExactlyWhen | src/scheduler.rs:55-86 | a schedule is accepted iff it starts at most 10^9 ns before now and, for an interval, its due times without a planned number are at least a clock cycle apart; each refusal has exactly its error |
| Validation.SubjectRefusedExactlyWhen | src/scheduler.rs:87-125 | a subject is refused iff it starts with a dollar sign, holds NUL, space, `>` or `*` at some index, or takes more than 256 bytes (as a 32-bit number) |
| Validation.ByteLengthAdds | src/scheduler.rs:90 | the byte length adds over concatenation |
| Validation.ByteLengthOfOne | src/scheduler.rs:90 | one character takes 1, 2, 3 or 4 bytes by its code; with additivity this determines every length |
| Validation.AsciiSubjectAcceptedExactlyWhen | src/scheduler.rs:87-125 | an ASCII subject shorter than 2^32 is accepted iff it has at most 256 characters, no leading dollar sign and no forbidden one |
| Scheduler.TransmissionScheduler.Transmit | src/scheduler.rs:206-251 | one send: the call, then save or reschedule, with its metrics, whatever is stored meanwhile |
| Scheduler.TransmissionScheduler.ProcessBatch | src/scheduler.rs:164-204 | the batch loop has the effect of the batch function that the run theorems are about |
| Scheduler.TransmissionScheduler.Run | src/scheduler.rs:136-157 | the run loop performs one batch per clock cycle, in order |
| BatchEffect.QueueMembers | src/scheduler.rs:180-189 | the queue of a batch holds distinct stored entries that are due by both tests |
| BatchEffect.OneSendKeepsQueue | src/scheduler.rs:191-201 | after one send and any pushes, the rest of the queue is still stored exactly as polled, so saving a snapshot never undoes anything |
| BatchEffect.LoopEffect | src/scheduler.rs:191-251 | the loop of sends and id-based overwrites, interleaved with pushes, advances exactly the queued entries that were sent |
| BatchEffect.BatchIsOnePass | src/scheduler.rs:164-204 | a whole batch is one pass over the list as polled, followed by everything pushed meanwhile, with one call per queued entry in order |
| MemorySafety.ExactlyOnce | src/scheduler.rs:164-251 | in every run the successful sends of each id are occurrences 0, 1, 2, ... in order up to its count, at most as many as planned, with the right message and never before due |
| MemorySafety.FiniteDeliveries | src/scheduler.rs:212-222 | for a finite schedule the deliveries are exactly occurrences 0..count-1 |
| MemorySafety.FailedStaysDue | src/scheduler.rs:234-239 | a failed occurrence is stored unchanged and due for any later batch |
| MemorySafety.AcceptedIntervalIsPositive | src/config.rs:43-49 | the two validators together rule out a zero interval |
| MemorySafety.RateBound | src/model.rs:139-149 | for any clock, at most floor((T - first) / interval) + 1 successful sends of an interval schedule have clock readings up to T, none before first |
| MemorySafety.WrapTakesTime | src/model.rs:47-48 | the count of an interval schedule has not wrapped before its 2^32-th occurrence is due |
| MemorySafety.MetricConservation | src/scheduler.rs:164-251 | over every run: Transmitted(true) and ScheduleStateSaved(true) count the successful calls, Transmitted(false) and Rescheduled(true) the failed ones, Polled(true) the batches, Scheduled(true) what is stored; every other counter stays 0 |
| MemorySafety.MetricsOfRun | src/scheduler.rs:136-251 | the same for every run from the empty store, with all ten counters determined |
| MemoryProgress.DueTestsAgree | src/scheduler.rs:180-189 | the poll test and the scheduler filter agree except for an untouched `Times(0)`, which the filter drops |
| MemoryProgress.EntryInBatch | src/scheduler.rs:164-204 | which entry a batch attempts, and what becomes of every entry |
| MemoryProgress.PassProgress | src/repository_in_memory.rs:42-54 | every polled entry is an untouched `Times(0)` that is due, a failed send, or one send less to come |
| MemoryProgress.WaitingBound | src/scheduler.rs:164-204 | batches that pass over a due entry, times 100 less the untouched `Times(0)` entries ahead that are due by the end, is at most the work ahead plus the failed sends, whatever is pushed |
| MemoryProgress.WaitsAtMost | src/scheduler.rs:164-204 | with sends succeeding and Z < 100 due `Times(0)` ahead, a due entry is sent within floor(R / (100 - Z)) + 1 batches |
| MemoryProgress.StarvedForever | src/repository_in_memory.rs:42-54 | with 100 due `Times(0)` entries ahead, nothing behind them is ever attempted |
| MemoryProgress.WaitsExactlyWhen | src/repository_in_memory.rs:42-54 | a due entry behind finite schedules is sent in every succeeding run of more than R batches iff fewer than 100 `Times(0)` entries ahead of it are due by the end |
| MemoryProgress.DudsAreAccepted | src/scheduler.rs:68-85 | the validator ignores the planned number of times; an accepted interval or cron schedule with an occurrence is such an entry iff it is planned `Times(0)` |
| MemoryDrain.PassDrains | src/repository_in_memory.rs:42-54 | a pass over an overdue backlog uses its whole capacity or brings every entry one send closer to completion |
| MemoryDrain.DrainBound | src/scheduler.rs:164-204 | an overdue backlog, whatever is pushed behind it, is finished within floor(R / (100 - Z)) + M batches, Z < 100 counting the due `Times(0)` in it |
| MemoryDrain.DrainsExactlyWhen | src/repository_in_memory.rs:42-54 | every succeeding run of R + M batches drains an overdue backlog iff fewer than 100 `Times(0)` entries in it are due by the end |
| MemoryDrain.DrainSendsEverything | src/scheduler.rs:164-251 | after that many batches each id has been sent exactly its planned occurrences, in order and once each |
| MemoryDrain.FinishedWasFullySent | src/model.rs:42-57 | a finite transmission that is finished in memory has been sent exactly its planned occurrences, once each, despite failures on the way |
| MemoryLateness.AcceptedIsOnTime | src/scheduler.rs:55-86 | an accepted transmission is due no more than a second before its acceptance, and delayed and interval schedules are refused as aged exactly otherwise |
| MemoryLateness.LatenessBound | src/scheduler.rs:136-189 | as long as the count does not wrap, no occurrence is sent more than the poll gap plus one second late over a whole run, and none due earlier is left unsent |
| MemoryLateness.NoWrapBeforeDue | src/model.rs:47-48 | a run that ends before occurrence 2^32 - 1 is due does not wrap the count |
| MemoryLateness.AcceptedIntervalIsNeverLate | src/scheduler.rs:68-77 | the same from acceptance on, for every accepted interval schedule polled at least as often as its interval |
| MemoryWitnesses.PromptRequestIsNeverSent | src/scheduler.rs:164-204 | from the empty store, 100 accepted `Times(0)` intervals and then a due transmission: it is never attempted in any run that follows |
| Postgres.RepositoryPostgres.StoreTransmission | src/repository_postgres.rs:46-72 | refused iff the key is taken; otherwise one unlocked row is added that reads back as what was stored; no row is ever changed or removed |
| Postgres.RepositoryPostgres.PollTransmissions | src/repository_postgres.rs:74-115 | locks every claimable row and returns any min(limit, claimed) of them |
| Postgres.RepositoryPostgres.Save | src/repository_postgres.rs:117-119 | saving appends a row |
| Postgres.RescheduleNeverReleases | src/repository_postgres.rs:121-146 | on any table, the statement of `reschedule` makes no row claimable for any poll, takes those it updates from every poll, and updates none iff all rows of the id are locked |
| ProtocolInvariant.SaveConflict | migrations/20240212203407_initial.up.sql:11 | a holder's save meets the primary key iff its 32-bit count wraps, which no finite schedule's does |
| ProtocolSafety.PolledQueueMembers | src/scheduler.rs:180-189 | what a poll hands to its worker are claimed rows with distinct ids |
| ProtocolSafety.HeldHasNothingToReschedule | src/repository_postgres.rs:125-138 | while a worker holds an id's top row, rescheduling that id updates no row |
| ProtocolSafety.StepKeepsInv | src/repository_postgres.rs:46-146 | each step keeps: counts 0..m without gaps, all rows below the top locked, one schedule and message per id, workers hold distinct locked top rows, calls justified and at most once |
| ProtocolSafety.RunKeepsInv | src/scheduler.rs:164-251 | the same for every run of any number of workers |
| ProtocolSafety.StepChange | src/repository_postgres.rs:46-146 | a step leaves the table alone, locks what a poll claims, or appends the next row of an id |
| ProtocolProgress.EveryOutcomeIsPossible | src/scheduler.rs:164-251 | no worker is ever stuck: in any state its next statement can be issued and can succeed, fail, or commit with its reply lost, a send can go either way, and a crash can come at any point |
| ProtocolProgress.StoringIsPossible | src/scheduler.rs:37-51 | a new transmission can be stored at any time with any outcome, given a fresh id |
| ProtocolProgress.StepsFollowPhases | src/scheduler.rs:164-251 | besides that, a worker takes only the step of the phase it is in: poll when its queue is empty, send, then save after success and reschedule after failure |
| ProtocolDelivery.TransmitAtMostOnce | src/scheduler.rs:191-251 | in every run the transmitter is called at most once per (id, transmission_count), with the stored message and never before due |
| ProtocolDelivery.CallsFollowPolls | src/scheduler.rs:164-201 | every call was for a row that a poll of the run returned, at the clock reading of that poll |
| ProtocolDelivery.ExactlyOnceBelowTop | src/scheduler.rs:212-222 | every occurrence the log has moved past was sent by exactly one call, which succeeded |
| ProtocolDelivery.FinishedWasFullySent | src/scheduler.rs:191-251 | when the log shows a finite transmission as finished, the calls made for it, under whatever faults, are exactly one successful call for each planned occurrence |
| ProtocolDelivery.RescheduleLocksLatest | src/repository_postgres.rs:121-146 | in any state, reachable or not, a reschedule that commits locks exactly the latest unlocked rows of its id, and a failing one changes nothing |
| ProtocolDelivery.RescheduleChangesNothing | src/repository_postgres.rs:125-138 | every reschedule the scheduler issues leaves the whole table unchanged |
| ProtocolDelivery.SaveNeverConflicts | src/repository_postgres.rs:54-67 | in every run a save is refused for its primary key iff a 32-bit count wraps |
| ProtocolDelivery.FailedSendIsFinal | src/scheduler.rs:234-249 | after a failed send no worker ever calls the transmitter for that id again, and its log never moves on |
| ProtocolMetrics.StepCounts | src/scheduler.rs:42-51 | each step raises the counter of the statement it issues and no other: success for a save or store iff it committed with its reply and the table gained exactly that row, for a reschedule iff its reply came, for a poll iff it returned |
| ProtocolMetrics.CountersTally | src/scheduler.rs:37-251 | over every run, each of the eight statement counters rises by the number of statements that fared that way |
| ProtocolMetrics.MetricConservation | src/scheduler.rs:191-251 | each successful call is in flight, cut short by a crash, or resolved by one save, each failed one likewise by one reschedule; Transmitted(true) counts the successful saves and Transmitted(false) the rest |
| ProtocolMetrics.MetricsOfRun | src/scheduler.rs:37-251 | both for every run from the empty table |
| ProtocolConservation.ExactlyOnePlace | src/repository_postgres.rs:83-98 | each top row is waiting, held, finished or stranded, exactly one of them |
| ProtocolConservation.EveryIdHasATop | src/repository_postgres.rs:117-119 | every stored id has a top row, so the places of the top rows account for every transmission |
| ProtocolConservation.HolderIsUnique | src/repository_postgres.rs:83-98 | no row is held by two workers |
| ProtocolConservation.StrandedExactly | src/scheduler.rs:180-251 | the exact set of rows that each step strands, and that stranding is permanent |
| ProtocolConservation.StrandedForever | src/scheduler.rs:180-251 | what is stranded stays stranded in every continuation, and the transmitter is never called for its id again |
| ProtocolConservation.PollLosesExactly | src/repository_postgres.rs:83-101 | a poll loses exactly what the limit cuts off and what the filter drops, at least all claims past the limit |
| ProtocolConservation.LosesNothingIffBenign | src/scheduler.rs:180-251 | a step loses nothing iff it has no overflow, `Times(0)`, failure or crash |
| ProtocolConservation.NothingLostIffBenign | src/scheduler.rs:164-251 | a run loses nothing iff all its steps are such |
| ProtocolConservation.PollTakesEveryDue | src/repository_postgres.rs:83-101 | such a poll hands its worker every waiting transmission that is due |
| ProtocolQuery.ClaimsExactly | src/repository_postgres.rs:83-98 | on any table, the sub-query hides exactly the rows of an id with a later stamp |
| ProtocolQuery.RedundantIffNothingInvisible | src/repository_postgres.rs:83-98 | on any table, the sub-query makes no difference to any poll iff no unlocked row that has an occurrence is hidden |
| ProtocolQuery.NothingInvisibleIff | src/repository_postgres.rs:54-98 | over every run, no unlocked row is hidden at the end iff every committed save came at or after the stamp of the row it advanced |
| ProtocolQuery.QueryEquivalence | src/repository_postgres.rs:83-98 | in every run, all polls claim exactly the unlocked due rows iff no save of a further occurrence committed before the stamp of the row it advanced |
| ProtocolQuery.BackwardSaveIsInvisible | src/repository_postgres.rs:54-67 | an occurrence saved at an earlier clock reading than the one before is hidden from the poll |
| ProtocolQuery.InvisibleForever | src/repository_postgres.rs:83-98 | such an occurrence is never sent in any continuation |
| ProtocolWitnesses.OneFailedSendIsTheEnd | src/scheduler.rs:234-249 | from the empty table, any transmission whose first occurrence fails once is never sent again in any continuation |
| ProtocolWitnesses.OverflowStrandsTheRest | src/repository_postgres.rs:83-101 | from the empty table, of n due transmissions one poll strands all but 100 for good, whichever rows it returns |
| ProtocolWitnesses.OverflowHappens | src/repository_postgres.rs:83-101 | that run exists for every n |
| ProtocolWitnesses.BackwardClockLosesNext | src/repository_postgres.rs:54-67 | from the empty table, any further occurrence saved before the stamp of the one before is stored, unlocked and never sent |
| Refinement.MemoryStoreRefines | src/repository_in_memory.rs:25-35 | storing in memory inserts into the map from id to transmission |
| Refinement.MemorySaveRefines | src/repository_in_memory.rs:57-65 | saving in memory overwrites in the map |
| Refinement.MemoryPollRefines | src/repository_in_memory.rs:37-55 | an in-memory poll returns due entries of the map, each id at most once |
| Refinement.StepRefines | src/repository_postgres.rs:46-146 | taking the highest-count row of each id, every protocol step inserts into the map, advances one entry, or does nothing |
| Refinement.RunRefines | src/repository_postgres.rs:46-146 | the same over whole runs |
| Refinement.PollRefines | src/repository_postgres.rs:74-115 | every Postgres poll returns due entries of the map, each id at most once |

## Left out

- gRPC transport, health service, the generated Go client and request parsing: plumbing over libraries.
- NATS and the network: a send succeeds or fails; "sent" means that the transmitter returned Ok.
- Cron expression parsing and calendar arithmetic: only the next-match map remains.
- JSON, sqlx and Postgres internals: each statement is one atomic step, and a stored record (its
  microsecond timestamps and signed 32-bit count column included) comes back as it went in.
- UUID generation: ids of new transmissions are fresh.
- `migrate`, `clear_all`, configuration loading, `main`, signals and the Prometheus server: startup and I/O.
- Date and duration overflow: times are unbounded. 32-bit count overflow is modelled.
- Scheduler.TransmissionScheduler.Schedule: its branch for a failing repository is absent, because
  storing in memory always succeeds; the Store step of `Protocol.dfy` has it.
- Scheduler.TransmissionScheduler.Transmit: its branches for a failing save or reschedule are absent
  for the same reason; the Save and Reschedule steps of `Protocol.dfy` have them.
- Scheduler.TransmissionScheduler.ProcessBatch: its branch for a failing poll is absent for the same
  reason; the PollFails step of `Protocol.dfy` has it.
- MemorySafety.RateBound: its count must not have wrapped, because after that an unbounded schedule
  starts again at its first occurrence; MemorySafety.WrapTakesTime says until when it cannot have.
- MemoryLateness.LatenessBound: the run must not wrap the count of an unbounded schedule, for the
  same reason; MemoryLateness.NoWrapBeforeDue says when it does not.
- MemoryLateness.AcceptedIntervalIsNeverLate: the same.
- Several batch loops on one in-memory repository: `main` starts one.
