/**
 Any number of schedulers sharing one Postgres table, as a transition system. Each SQL
 statement, each call of the transmitter and each crash is one step; steps of
 different workers interleave freely.
 */
module Protocol {
  import opened Wrappers
  import opened Model
  import opened Postgres
  import Scheduler

  type WorkerId = nat

  /** Where a worker is in `process_batch`. With an empty queue it waits for its next batch. */
  datatype Worker =
    | Working(now: Time, queue: seq<Transmission>)
    | Sent(now: Time, current: Transmission, queue: seq<Transmission>)
    | Refused(now: Time, current: Transmission, queue: seq<Transmission>)

  const READY := Working(0, [])

  /** The transmissions a worker has claimed and not yet resolved. */
  function Holding(worker: Worker): seq<Transmission> {
    if worker.Working? then worker.queue else [worker.current] + worker.queue
  }

  /** One call of the transmitter. */
  datatype Call = Call(key: Key, message: Message, at: Time, ok: bool)

  /** `calls` is history, which no step reads. */
  datatype System = System(
    table: Table, workers: map<WorkerId, Worker>, calls: seq<Call>, metrics: Scheduler.Metrics)
  {
    function Worker(w: WorkerId): Worker {
      if w in workers then workers[w] else READY
    }
  }

  const INITIAL := System(map[], map[], [], Scheduler.NO_METRICS)

  /** How a statement fares: it may fail without effect, or commit with its reply lost. */
  datatype Outcome = Done | NotApplied | ReplyLost

  datatype Step =
    | Store(t: Transmission, insertedAt: Time, outcome: Outcome)
    | Poll(w: WorkerId, now: Time, rows: seq<Key>)
    | PollFails(w: WorkerId, now: Time, applied: bool)
    | Send(w: WorkerId, ok: bool)
    | Save(w: WorkerId, insertedAt: Time, outcome: Outcome)
    | Reschedule(w: WorkerId, outcome: Outcome)
    | Crash(w: WorkerId)

  predicate Enabled(s: System, step: Step) {
    match step
    case Store(t, _, _) => t == NewTransmission(t.id, t.schedule, t.message) && forall k :: k in s.table ==> k.id != t.id
    case Poll(w, now, rows) =>
      && s.Worker(w).Working? && s.Worker(w).queue == []
      && IsSelection(rows, Claims(s.table, now), Scheduler.BATCH_SIZE)
    case PollFails(w, _, _) => s.Worker(w).Working? && s.Worker(w).queue == []
    case Send(w, _) => s.Worker(w).Working? && s.Worker(w).queue != []
    case Save(w, _, _) => s.Worker(w).Sent?
    case Reschedule(w, _) => s.Worker(w).Refused?
    case Crash(_) => true
  }

  /** The table after an INSERT, and whether its caller is told that it succeeded. */
  function AfterInsert(table: Table, t: Transmission, insertedAt: Time, outcome: Outcome): (Table, bool) {
    if outcome == NotApplied then (table, false)
    else match Insert(table, t, insertedAt)
      case Ok(table') => (table', outcome == Done)
      case Err(_) => (table, false)
  }

  function AfterSave(s: System, w: WorkerId, insertedAt: Time, outcome: Outcome): System
    requires s.Worker(w).Sent?
  {
    var Sent(now, t, queue) := s.Worker(w);
    var s := s.(workers := s.workers[w := Working(now, queue)]);
    match t.Transmitted()
    case Err(_) => s.(metrics := s.metrics.Count(Scheduler.Transmitted(false)))
    case Ok(t') =>
      var (table, saved) := AfterInsert(s.table, t', insertedAt, outcome);
      s.(table := table,
         metrics := s.metrics.Count(Scheduler.ScheduleStateSaved(saved)).Count(Scheduler.Transmitted(saved)))
  }

  function AfterReschedule(s: System, w: WorkerId, outcome: Outcome): System
    requires s.Worker(w).Refused?
  {
    var Refused(now, t, queue) := s.Worker(w);
    s.(table := if outcome == NotApplied then s.table else Lock(s.table, RescheduleTargets(s.table, t.id)),
       workers := s.workers[w := Working(now, queue)],
       metrics := s.metrics.Count(Scheduler.Rescheduled(outcome == Done)).Count(Scheduler.Transmitted(false)))
  }

  function Apply(s: System, step: Step): System
    requires Enabled(s, step)
  {
    match step
    case Store(t, insertedAt, outcome) =>
      var (table, stored) := AfterInsert(s.table, t, insertedAt, outcome);
      s.(table := table, metrics := s.metrics.Count(Scheduler.Scheduled(stored)))
    case Poll(w, now, rows) =>
      s.(table := Lock(s.table, Claims(s.table, now)),
         workers := s.workers[w := Working(now, Scheduler.RelevantOf(StoredAll(s.table, rows), now))],
         metrics := s.metrics.Count(Scheduler.Polled(true)))
    case PollFails(w, now, applied) =>
      s.(table := if applied then Lock(s.table, Claims(s.table, now)) else s.table,
         metrics := s.metrics.Count(Scheduler.Polled(false)))
    case Send(w, ok) =>
      var Working(now, queue) := s.Worker(w);
      var t := queue[0];
      s.(workers := s.workers[w := if ok then Sent(now, t, queue[1..]) else Refused(now, t, queue[1..])],
         calls := s.calls + [Call(KeyOf(t), t.message, now, ok)])
    case Save(w, insertedAt, outcome) => AfterSave(s, w, insertedAt, outcome)
    case Reschedule(w, outcome) => AfterReschedule(s, w, outcome)
    case Crash(w) => s.(workers := s.workers[w := READY])
  }

  predicate ValidRun(s: System, steps: seq<Step>)
    decreases steps
  {
    steps == [] || (Enabled(s, steps[0]) && ValidRun(Apply(s, steps[0]), steps[1..]))
  }

  function Run(s: System, steps: seq<Step>): System
    requires ValidRun(s, steps)
    decreases steps
  {
    if steps == [] then s else Run(Apply(s, steps[0]), steps[1..])
  }
}
