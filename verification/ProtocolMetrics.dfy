/**
 What the metrics of the Postgres protocol say: each counter is the number of statements
 of its kind that fared that way, and together they account for every call of the
 transmitter.
 */
module ProtocolMetrics {
  import opened Model
  import opened Postgres
  import opened Protocol
  import opened ProtocolInvariant
  import opened ProtocolSafety
  import Scheduler

  // ---- What each counter counts ----

  datatype Statement = Storing | Polling | Saving | Rescheduling

  predicate Issues(step: Step, statement: Statement) {
    match statement
    case Storing => step.Store?
    case Polling => step.Poll? || step.PollFails?
    case Saving => step.Save?
    case Rescheduling => step.Reschedule?
  }

  /** The step puts the row of `k` into the table. */
  predicate Gains(s: System, step: Step, k: Key)
    requires Enabled(s, step)
  {
    k !in s.table && k in Apply(s, step).table
  }

  /** Whether the scheduler is to see the statement of this step succeed. */
  predicate Succeeds(s: System, step: Step)
    requires Enabled(s, step)
  {
    match step
    case Store(t, _, outcome) => outcome == Done && Gains(s, step, KeyOf(t))
    case Poll(_, _, _) => true
    case PollFails(_, _, _) => false
    case Save(w, _, outcome) =>
      var t := s.Worker(w).current;
      outcome == Done && Gains(s, step, Key(t.id, WrappingIncrement(t.transmissionCount)))
    case Reschedule(_, outcome) => outcome == Done
    case Send(_, _) => true
    case Crash(_) => true
  }

  /** How many steps of the run issue the statement and fare as `ok` says. */
  function Tally(s: System, steps: seq<Step>, statement: Statement, ok: bool): nat
    requires ValidRun(s, steps)
    decreases steps
  {
    if steps == [] then 0
    else
      (if Issues(steps[0], statement) && Succeeds(s, steps[0]) == ok then 1 else 0)
      + Tally(Apply(s, steps[0]), steps[1..], statement, ok)
  }

  function Counter(m: Scheduler.Metrics, statement: Statement, ok: bool): nat {
    match statement
    case Storing => if ok then m.scheduledOk else m.scheduledErr
    case Polling => if ok then m.polledOk else m.polledErr
    case Saving => if ok then m.savedOk else m.savedErr
    case Rescheduling => if ok then m.rescheduledOk else m.rescheduledErr
  }

  predicate CountsStep(s: System, step: Step)
    requires Enabled(s, step)
  {
    forall statement, ok ::
      Counter(Apply(s, step).metrics, statement, ok)
      == Counter(s.metrics, statement, ok) + if Issues(step, statement) && Succeeds(s, step) == ok then 1 else 0
  }

  lemma {:induction false} SaveCounts(s: System, w: WorkerId, insertedAt: Time, outcome: Outcome)
    requires Enabled(s, Save(w, insertedAt, outcome)) && s.Worker(w).current.next.Some?
    ensures CountsStep(s, Save(w, insertedAt, outcome))
  {
    var t := s.workers[w].current;
    SaveEffect(s, w, insertedAt, outcome);
    var saved := AfterInsert(s.table, t.Transmitted().value, insertedAt, outcome).1;
    assert Apply(s, Save(w, insertedAt, outcome)).metrics
           == s.metrics.Count(Scheduler.ScheduleStateSaved(saved)).Count(Scheduler.Transmitted(saved));
  }

  lemma {:induction false} StoreCounts(s: System, t: Transmission, insertedAt: Time, outcome: Outcome)
    requires Enabled(s, Store(t, insertedAt, outcome))
    ensures CountsStep(s, Store(t, insertedAt, outcome))
  {
    var stored := AfterInsert(s.table, t, insertedAt, outcome).1;
    assert Apply(s, Store(t, insertedAt, outcome)).metrics == s.metrics.Count(Scheduler.Scheduled(stored));
  }

  /** A step raises the counter of the statement that it issues, as that statement fared, and no other. */
  lemma {:induction false} StepCounts(s: System, step: Step)
    requires Enabled(s, step) && (step.Save? ==> s.Worker(step.w).current.next.Some?)
    ensures CountsStep(s, step)
  {
    match step
    case Store(t, insertedAt, outcome) => StoreCounts(s, t, insertedAt, outcome);
    case Poll(_, _, _) =>
    case PollFails(_, _, _) =>
    case Send(_, _) =>
    case Save(w, insertedAt, outcome) => SaveCounts(s, w, insertedAt, outcome);
    case Reschedule(_, _) =>
    case Crash(_) =>
  }

  /**
   A sent transmission that could not be advanced would be counted as not transmitted and
   leave no row; SavedHasNext shows that this never happens in a run.
   */
  lemma {:induction false} UnexpectedSend(s: System, w: WorkerId, insertedAt: Time, outcome: Outcome)
    requires Enabled(s, Save(w, insertedAt, outcome)) && s.Worker(w).current.next.None?
    ensures var s' := Apply(s, Save(w, insertedAt, outcome));
            && s'.table == s.table && s'.calls == s.calls
            && s'.metrics == s.metrics.(transmittedErr := s.metrics.transmittedErr + 1)
  {
  }

  /** What a worker saves was due, so it can be advanced. */
  lemma {:induction false} SavedHasNext(s: System, step: Step)
    requires Inv(s) && Enabled(s, step)
    ensures step.Save? ==> s.Worker(step.w).current.next.Some?
  {
    if step.Save? {
      ResolvingKeepsInv(s, step.w);
    }
  }

  /** Over a run, each counter rises by the number of its statements that fared that way. */
  lemma {:induction false} CountersTally(s: System, steps: seq<Step>, statement: Statement, ok: bool)
    requires Inv(s) && ValidRun(s, steps)
    ensures Counter(Run(s, steps).metrics, statement, ok)
            == Counter(s.metrics, statement, ok) + Tally(s, steps, statement, ok)
    decreases steps
  {
    if steps != [] {
      SavedHasNext(s, steps[0]);
      StepCounts(s, steps[0]);
      StepKeepsInv(s, steps[0]);
      CountersTally(Apply(s, steps[0]), steps[1..], statement, ok);
    }
  }

  // ---- The calls of the transmitter ----

  function CallsWith(calls: seq<Call>, ok: bool): nat {
    if calls == [] then 0 else (if calls[0].ok == ok then 1 else 0) + CallsWith(calls[1..], ok)
  }

  lemma {:induction false} CallsWithOneMore(calls: seq<Call>, call: Call, ok: bool)
    ensures CallsWith(calls + [call], ok) == CallsWith(calls, ok) + if call.ok == ok then 1 else 0
  {
    if calls == [] {
      assert [] + [call] == [call] && [call][1..] == [];
    } else {
      assert (calls + [call])[0] == calls[0] && (calls + [call])[1..] == calls[1..] + [call];
      CallsWithOneMore(calls[1..], call, ok);
    }
  }

  /** The workers that have called the transmitter, with that outcome, and not yet resolved the call. */
  function InFlight(workers: map<WorkerId, Worker>, ok: bool): set<WorkerId> {
    set w | w in workers && Flying(workers[w], ok)
  }

  predicate Flying(worker: Worker, ok: bool) {
    if ok then worker.Sent? else worker.Refused?
  }

  function OneIf(condition: bool): nat {
    if condition then 1 else 0
  }

  lemma {:induction false} InFlightUpdate(s: System, w: WorkerId, worker: Worker, ok: bool)
    ensures |InFlight(s.workers[w := worker], ok)| + OneIf(Flying(s.Worker(w), ok))
            == |InFlight(s.workers, ok)| + OneIf(Flying(worker, ok))
  {
    var before, after := InFlight(s.workers, ok), InFlight(s.workers[w := worker], ok);
    assert after == if Flying(worker, ok) then before + {w} else before - {w};
  }

  /** A crash between a call of the transmitter and its resolution. */
  predicate CutsShort(s: System, step: Step, ok: bool) {
    step.Crash? && Flying(s.Worker(step.w), ok)
  }

  /** How many calls with that outcome are cut short in the run. */
  function CutShort(s: System, steps: seq<Step>, ok: bool): nat
    requires ValidRun(s, steps)
    decreases steps
  {
    if steps == [] then 0 else OneIf(CutsShort(s, steps[0], ok)) + CutShort(Apply(s, steps[0]), steps[1..], ok)
  }

  /** The events that resolve a call: a save after a successful one, a reschedule after a failed one. */
  function Resolved(m: Scheduler.Metrics, ok: bool): nat {
    if ok then m.savedOk + m.savedErr else m.rescheduledOk + m.rescheduledErr
  }

  predicate CallsAgree(s: System, ok: bool, cut: nat) {
    CallsWith(s.calls, ok) == Resolved(s.metrics, ok) + |InFlight(s.workers, ok)| + cut
  }

  /** Only a send that was also saved counts as transmitted. */
  predicate TransmittedAgrees(m: Scheduler.Metrics) {
    && m.transmittedOk == m.savedOk
    && m.transmittedErr == m.savedErr + m.rescheduledOk + m.rescheduledErr
  }

  lemma {:induction false} SaveResolves(s: System, w: WorkerId, insertedAt: Time, outcome: Outcome, ok: bool, cut: nat)
    requires Enabled(s, Save(w, insertedAt, outcome)) && s.Worker(w).current.next.Some?
    requires CallsAgree(s, ok, cut) && TransmittedAgrees(s.metrics)
    ensures CallsAgree(Apply(s, Save(w, insertedAt, outcome)), ok, cut)
    ensures TransmittedAgrees(Apply(s, Save(w, insertedAt, outcome)).metrics)
  {
    var Sent(now, t, queue) := s.Worker(w);
    InFlightUpdate(s, w, Working(now, queue), ok);
    var saved := AfterInsert(s.table, t.Transmitted().value, insertedAt, outcome).1;
    assert Apply(s, Save(w, insertedAt, outcome)).metrics
           == s.metrics.Count(Scheduler.ScheduleStateSaved(saved)).Count(Scheduler.Transmitted(saved));
  }

  lemma {:induction false} SendFlies(s: System, w: WorkerId, sent: bool, ok: bool, cut: nat)
    requires Enabled(s, Send(w, sent)) && CallsAgree(s, ok, cut)
    ensures CallsAgree(Apply(s, Send(w, sent)), ok, cut)
  {
    var worker := s.Worker(w);
    var t := worker.queue[0];
    InFlightUpdate(s, w, AfterCall(worker, sent), ok);
    CallsWithOneMore(s.calls, Call(KeyOf(t), t.message, worker.now, sent), ok);
  }

  lemma {:induction false} StepKeepsMetrics(s: System, step: Step, ok: bool, cut: nat)
    requires Enabled(s, step) && (step.Save? ==> s.Worker(step.w).current.next.Some?)
    requires CallsAgree(s, ok, cut) && TransmittedAgrees(s.metrics)
    ensures CallsAgree(Apply(s, step), ok, cut + OneIf(CutsShort(s, step, ok)))
    ensures TransmittedAgrees(Apply(s, step).metrics)
  {
    match step
    case Store(_, _, _) =>
    case Poll(w, now, rows) => InFlightUpdate(s, w, Apply(s, step).workers[w], ok);
    case PollFails(_, _, _) =>
    case Send(w, sent) => SendFlies(s, w, sent, ok, cut);
    case Save(w, insertedAt, outcome) => SaveResolves(s, w, insertedAt, outcome, ok, cut);
    case Reschedule(w, _) => InFlightUpdate(s, w, Working(s.Worker(w).now, s.Worker(w).queue), ok);
    case Crash(w) => InFlightUpdate(s, w, READY, ok);
  }

  /**
   Conservation of the calls over whole runs: each successful call of the transmitter is
   in flight, was cut short by a crash, or was resolved by one save, and each failed one
   likewise by one reschedule; Transmitted events tell which calls were also saved.
   */
  lemma {:induction false} MetricConservation(s: System, steps: seq<Step>, ok: bool, cut: nat)
    requires Inv(s) && ValidRun(s, steps)
    requires CallsAgree(s, ok, cut) && TransmittedAgrees(s.metrics)
    ensures CallsAgree(Run(s, steps), ok, cut + CutShort(s, steps, ok))
    ensures TransmittedAgrees(Run(s, steps).metrics)
    decreases steps
  {
    if steps != [] {
      StepKeepsInv(s, steps[0]);
      SavedHasNext(s, steps[0]);
      StepKeepsMetrics(s, steps[0], ok, cut);
      MetricConservation(Apply(s, steps[0]), steps[1..], ok, cut + OneIf(CutsShort(s, steps[0], ok)));
    }
  }

  lemma {:induction false} NoCallsInitially(ok: bool)
    ensures CallsAgree(INITIAL, ok, 0)
  {
    assert CallsWith(INITIAL.calls, ok) == 0;
    assert InFlight(INITIAL.workers, ok) == {};
    assert Resolved(INITIAL.metrics, ok) == 0;
  }

  lemma {:induction false} NoEventsInitially(statement: Statement, ok: bool)
    ensures Counter(INITIAL.metrics, statement, ok) == 0 && TransmittedAgrees(INITIAL.metrics)
  {
  }

  lemma {:induction false} MetricsFrom(s: System, steps: seq<Step>, statement: Statement, ok: bool)
    requires Inv(s) && ValidRun(s, steps)
    requires CallsAgree(s, ok, 0) && TransmittedAgrees(s.metrics) && Counter(s.metrics, statement, ok) == 0
    ensures Counter(Run(s, steps).metrics, statement, ok) == Tally(s, steps, statement, ok)
    ensures CallsAgree(Run(s, steps), ok, CutShort(s, steps, ok))
    ensures TransmittedAgrees(Run(s, steps).metrics)
  {
    CountersTally(s, steps, statement, ok);
    MetricConservation(s, steps, ok, 0);
  }

  /**
   From the empty table on, the counters are the tallies of the statements and account
   for every call of the transmitter.
   */
  lemma {:induction false} MetricsOfRun(s: System, steps: seq<Step>, statement: Statement, ok: bool)
    requires s == INITIAL && ValidRun(s, steps)
    ensures Counter(Run(s, steps).metrics, statement, ok) == Tally(s, steps, statement, ok)
    ensures CallsAgree(Run(s, steps), ok, CutShort(s, steps, ok))
    ensures TransmittedAgrees(Run(s, steps).metrics)
  {
    InvInitially();
    NoEventsInitially(statement, ok);
    NoCallsInitially(ok);
    MetricsFrom(s, steps, statement, ok);
  }
}
