/**
 The scheduler of src/scheduler.rs, running on the in-memory repository.

 What the outside world decides becomes a parameter of each batch: the clock
 reading, which transmissions the transmitter fails to send, and which
 transmissions other tasks store while this one waits.
 */
module Scheduler {
  import opened Wrappers
  import opened Model
  import opened InMemory

  const BATCH_SIZE: U32 := 100
  const MAX_DELAYED_AGE: Time := SECOND
  const MAX_NATS_SUBJECT_LENGTH := 256

  datatype ScheduleError = AgedSchedule | TooShortInterval | NatsInvalidSubject

  function ValidateSchedule(now: Time, schedule: Schedule, clockCycleInterval: nat): Result<(), ScheduleError> {
    match schedule
    case Delayed(transmitAt) =>
      if transmitAt < now - MAX_DELAYED_AGE then Err(AgedSchedule) else Ok(())
    case Interval(first, interval, _) =>
      if first < now - MAX_DELAYED_AGE then Err(AgedSchedule)
      else if interval < clockCycleInterval then Err(TooShortInterval)
      else Ok(())
    case Cron(after, _, _) =>
      if after < now - MAX_DELAYED_AGE then Err(AgedSchedule) else Ok(())
  }

  /** The number of bytes of a string in UTF-8. */
  function ByteLength(s: string): nat {
    if s == "" then 0
    else
      var code := s[0] as int;
      (if code < 0x80 then 1 else if code < 0x800 then 2 else if code < 0x1_0000 then 3 else 4) + ByteLength(s[1..])
  }

  /** The length is compared as a 32-bit number. */
  function ValidateMessage(message: Message): Result<(), ScheduleError> {
    match message
    case NatsEvent(subject, _) =>
      if ByteLength(subject) % U32_MODULUS > MAX_NATS_SUBJECT_LENGTH then Err(NatsInvalidSubject)
      else if subject != "" && subject[0] == '$' then Err(NatsInvalidSubject)
      else if '\0' in subject then Err(NatsInvalidSubject)
      else if ' ' in subject then Err(NatsInvalidSubject)
      else if '>' in subject then Err(NatsInvalidSubject)
      else if '*' in subject then Err(NatsInvalidSubject)
      else Ok(())
  }

  /** The part of src/config.rs that the scheduler relies on. */
  predicate ValidConfig(clockCycleInterval: nat) {
    clockCycleInterval != 0
  }

  // ---- Metrics ----

  datatype MetricEvent =
    | Scheduled(success: bool)
    | Polled(success: bool)
    | Transmitted(success: bool)
    | ScheduleStateSaved(success: bool)
    | Rescheduled(success: bool)

  datatype Metrics = Metrics(
    scheduledOk: nat, scheduledErr: nat,
    polledOk: nat, polledErr: nat,
    transmittedOk: nat, transmittedErr: nat,
    savedOk: nat, savedErr: nat,
    rescheduledOk: nat, rescheduledErr: nat)
  {
    function Count(event: MetricEvent): Metrics {
      match event
      case Scheduled(true) => this.(scheduledOk := scheduledOk + 1)
      case Scheduled(false) => this.(scheduledErr := scheduledErr + 1)
      case Polled(true) => this.(polledOk := polledOk + 1)
      case Polled(false) => this.(polledErr := polledErr + 1)
      case Transmitted(true) => this.(transmittedOk := transmittedOk + 1)
      case Transmitted(false) => this.(transmittedErr := transmittedErr + 1)
      case ScheduleStateSaved(true) => this.(savedOk := savedOk + 1)
      case ScheduleStateSaved(false) => this.(savedErr := savedErr + 1)
      case Rescheduled(true) => this.(rescheduledOk := rescheduledOk + 1)
      case Rescheduled(false) => this.(rescheduledErr := rescheduledErr + 1)
    }
  }

  const NO_METRICS := Metrics(0, 0, 0, 0, 0, 0, 0, 0, 0, 0)

  class MetricClient {
    var metrics: Metrics

    constructor ()
      ensures metrics == NO_METRICS
    {
      metrics := NO_METRICS;
    }

    method Count(event: MetricEvent)
      modifies this
      ensures metrics == old(metrics).Count(event)
    {
      metrics := metrics.Count(event);
    }
  }

  // ---- One batch, as a function ----

  predicate Relevant(t: Transmission, now: Time) {
    var next := t.schedule.Next(t.transmissionCount);
    next.Some? && next.value <= now
  }

  /** The filter that process_batch applies to what it polled. */
  function RelevantOf(ts: seq<Transmission>, now: Time): (r: seq<Transmission>)
    ensures |r| <= |ts|
  {
    if ts == [] then []
    else (if Relevant(ts[0], now) then [ts[0]] else []) + RelevantOf(ts[1..], now)
  }

  /** One call of the transmitter and its outcome. */
  datatype Attempt = Attempt(id: Id, count: U32, message: Message, at: Time, ok: bool)

  function AttemptOf(t: Transmission, now: Time, ok: bool): Attempt {
    Attempt(t.id, t.transmissionCount, t.message, now, ok)
  }

  /** The store, every call of the transmitter so far, and the metrics. */
  datatype World = World(store: seq<Transmission>, attempts: seq<Attempt>, metrics: Metrics)

  /**
   What one batch meets: its clock reading, the ids whose send fails, and the
   transmissions that other tasks store. Slot k of `arrivals` is stored during the
   k-th send; slots left over are stored before the next batch.
   */
  datatype Tick = Tick(now: Time, failing: set<Id>, arrivals: seq<seq<Transmission>>)

  function Arrive(w: World, ts: seq<Transmission>): World {
    World(w.store + ts, w.attempts, w.metrics.(scheduledOk := w.metrics.scheduledOk + |ts|))
  }

  function First(arrivals: seq<seq<Transmission>>): seq<Transmission> {
    if arrivals == [] then [] else arrivals[0]
  }

  function Rest(arrivals: seq<seq<Transmission>>): seq<seq<Transmission>> {
    if arrivals == [] then [] else arrivals[1..]
  }

  function Flatten(arrivals: seq<seq<Transmission>>): seq<Transmission> {
    if arrivals == [] then [] else arrivals[0] + Flatten(arrivals[1..])
  }

  /** The effect of `transmit`, and whether it returns Ok. */
  function AfterTransmit(w: World, t: Transmission, now: Time, sent: bool, arriving: seq<Transmission>): (World, bool) {
    var w := Arrive(w.(attempts := w.attempts + [AttemptOf(t, now, sent)]), arriving);
    if sent then
      match t.Transmitted()
      case Ok(t') => (w.(store := Overwrite(w.store, t'), metrics := w.metrics.Count(ScheduleStateSaved(true))), true)
      case Err(_) => (w, false)
    else
      (w.(metrics := w.metrics.Count(Rescheduled(true))), false)
  }

  function AfterOne(w: World, t: Transmission, now: Time, sent: bool, arriving: seq<Transmission>): World {
    var (w', ok) := AfterTransmit(w, t, now, sent, arriving);
    w'.(metrics := w'.metrics.Count(Transmitted(ok)))
  }

  function AfterAll(w: World, queue: seq<Transmission>, tick: Tick): World
    decreases queue
  {
    if queue == [] then Arrive(w, Flatten(tick.arrivals))
    else
      AfterAll(
        AfterOne(w, queue[0], tick.now, queue[0].id !in tick.failing, First(tick.arrivals)),
        queue[1..],
        tick.(arrivals := Rest(tick.arrivals)))
  }

  function Queue(store: seq<Transmission>, now: Time): seq<Transmission> {
    RelevantOf(Poll(store, now, BATCH_SIZE), now)
  }

  function AfterBatch(w: World, tick: Tick): World {
    AfterAll(w.(metrics := w.metrics.Count(Polled(true))), Queue(w.store, tick.now), tick)
  }

  function AfterRun(w: World, ticks: seq<Tick>): World
    decreases ticks
  {
    if ticks == [] then w else AfterRun(AfterBatch(w, ticks[0]), ticks[1..])
  }

  // ---- The scheduler object ----

  class TransmissionScheduler {
    const clockCycleInterval: nat
    const repository: RepositoryInMemory
    const metrics: MetricClient
    ghost var attempts: seq<Attempt>

    ghost function Now(): World
      reads this, repository, metrics
    {
      World(repository.transmissions, attempts, metrics.metrics)
    }

    constructor (clockCycleInterval: nat, repository: RepositoryInMemory, metrics: MetricClient)
      ensures this.clockCycleInterval == clockCycleInterval
      ensures this.repository == repository && this.metrics == metrics
      ensures Now() == World(repository.transmissions, [], metrics.metrics)
    {
      this.clockCycleInterval := clockCycleInterval;
      this.repository := repository;
      this.metrics := metrics;
      this.attempts := [];
    }

    /** A request to schedule; `id` is the fresh id that the new transmission is given. */
    method Schedule(now: Time, id: Id, when: Schedule, what: Message) returns (r: Result<Id, ScheduleError>)
      modifies repository, metrics
      ensures r.Ok? <==> ValidateSchedule(now, when, clockCycleInterval).Ok? && ValidateMessage(what).Ok?
      ensures r.Ok? ==> r == Ok(id) && Now() == Arrive(old(Now()), [NewTransmission(id, when, what)])
      ensures r.Err? ==> Now() == old(Now())
      ensures r == Err(NatsInvalidSubject) <==>
                ValidateSchedule(now, when, clockCycleInterval).Ok? && ValidateMessage(what).Err?
      ensures r == Err(AgedSchedule) || r == Err(TooShortInterval) ==>
                r.error == ValidateSchedule(now, when, clockCycleInterval).error
    {
      var validSchedule := ValidateSchedule(now, when, clockCycleInterval);
      if validSchedule.Err? {
        return Err(validSchedule.error);
      }
      var validMessage := ValidateMessage(what);
      if validMessage.Err? {
        return Err(validMessage.error);
      }
      var transmission := NewTransmission(id, when, what);
      repository.StoreTransmission(transmission);
      metrics.Count(Scheduled(true));
      return Ok(transmission.id);
    }

    /** Other tasks storing accepted transmissions while this one waits. */
    method Interleave(ts: seq<Transmission>)
      modifies repository, metrics
      ensures Now() == Arrive(old(Now()), ts)
    {
      for i := 0 to |ts|
        invariant Now() == Arrive(old(Now()), ts[..i])
      {
        assert ts[..i + 1] == ts[..i] + [ts[i]];
        repository.StoreTransmission(ts[i]);
        metrics.Count(Scheduled(true));
      }
      assert ts[..|ts|] == ts;
    }

    method Transmit(t: Transmission, now: Time, sent: bool, arriving: seq<Transmission>) returns (ok: bool)
      modifies this, repository, metrics
      ensures (Now(), ok) == AfterTransmit(old(Now()), t, now, sent, arriving)
    {
      attempts := attempts + [AttemptOf(t, now, sent)];
      Interleave(arriving);
      if sent {
        match t.Transmitted()
        case Ok(transmitted) =>
          repository.Save(transmitted);
          metrics.Count(ScheduleStateSaved(true));
          ok := true;
        case Err(_) =>
          ok := false;
      } else {
        repository.Reschedule(t.id);
        metrics.Count(Rescheduled(true));
        ok := false;
      }
    }

    method ProcessBatch(tick: Tick)
      modifies this, repository, metrics
      ensures Now() == AfterBatch(old(Now()), tick)
    {
      var schedules := repository.PollTransmissions(tick.now, BATCH_SIZE);
      metrics.Count(Polled(true));
      var relevant := RelevantOf(schedules, tick.now);
      var arrivals := tick.arrivals;
      var i := 0;
      while i < |relevant|
        invariant i <= |relevant|
        invariant AfterAll(Now(), relevant[i..], tick.(arrivals := arrivals)) == AfterBatch(old(Now()), tick)
      {
        assert relevant[i..][1..] == relevant[i + 1..];
        var ok := Transmit(relevant[i], tick.now, relevant[i].id !in tick.failing, First(arrivals));
        metrics.Count(Transmitted(ok));
        arrivals := Rest(arrivals);
        i := i + 1;
      }
      Interleave(Flatten(arrivals));
    }

    /** The loop of `run`, up to cancellation: one batch per clock cycle. */
    method Run(ticks: seq<Tick>)
      modifies this, repository, metrics
      ensures Now() == AfterRun(old(Now()), ticks)
    {
      for k := 0 to |ticks|
        invariant AfterRun(Now(), ticks[k..]) == AfterRun(old(Now()), ticks)
      {
        assert ticks[k..][1..] == ticks[k + 1..];
        ProcessBatch(ticks[k]);
      }
    }
  }
}
