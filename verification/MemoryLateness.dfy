/** How late the in-memory scheduler can be when every due entry fits its batch. */
module MemoryLateness {
  import opened Wrappers
  import opened Model
  import opened InMemory
  import opened Scheduler
  import opened BatchEffect
  import opened MemorySafety
  import opened MemoryProgress

  /** The first poll comes within `gap` of `last`, and each later one within `gap` of the one before. */
  predicate PollsWithin(last: Time, ticks: seq<Tick>, gap: nat)
    decreases ticks
  {
    ticks == [] || (last <= ticks[0].now <= last + gap && PollsWithin(ticks[0].now, ticks[1..], gap))
  }

  /** At every poll of the run, the due entries fit one batch. */
  predicate EveryDueFits(w: World, ticks: seq<Tick>)
    decreases ticks
  {
    ticks == []
    || (|DueOf(w.store, ticks[0].now)| <= BATCH_SIZE && EveryDueFits(AfterBatch(w, ticks[0]), ticks[1..]))
  }

  /** Nothing was due more than a second before `last`. */
  predicate OnTime(t: Transmission, last: Time) {
    t.next.Some? ==> last <= t.next.value + MAX_DELAYED_AGE
  }

  /**
   The age limit of the validator is what puts a new transmission on time: it refuses a
   delayed or interval schedule as aged exactly when its first occurrence is not.
   */
  lemma AcceptedIsOnTime(now: Time, id: Id, schedule: Schedule, message: Message, clockCycleInterval: nat)
    ensures ValidateSchedule(now, schedule, clockCycleInterval).Ok? ==>
              OnTime(NewTransmission(id, schedule, message), now)
    ensures !schedule.Cron? ==>
              (ValidateSchedule(now, schedule, clockCycleInterval) == Err(AgedSchedule)
               <==> !OnTime(NewTransmission(id, schedule, message), now))
  {
  }

  lemma {:induction false} DueAppend(a: seq<Transmission>, b: seq<Transmission>, before: Time)
    ensures DueOf(a + b, before) == DueOf(a, before) + DueOf(b, before)
  {
    if a == [] {
      assert a + b == b;
    } else {
      var head := if Due(a[0], before) then [a[0]] else [];
      assert (a + b)[0] == a[0] && (a + b)[1..] == a[1..] + b;
      DueAppend(a[1..], b, before);
      assert DueOf(a, before) == head + DueOf(a[1..], before);
    }
  }

  /** When everything due fits the batch, an entry is sent exactly when it is due. */
  lemma FittingEntry(w: World, tick: Tick, p: nat)
    requires Sound(w.store) && ValidTick(w, tick) && p < |w.store|
    requires |DueOf(w.store, tick.now)| <= BATCH_SIZE && tick.failing == {} && !IsDud(w.store[p])
    ensures var e, w' := w.store[p], AfterBatch(w, tick);
            && (e in Queue(w.store, tick.now) <==> Due(e, tick.now))
            && p < |w'.store|
            && w'.store[p] == if Due(e, tick.now) then Advance(e) else e
  {
    EntryInBatch(w, tick, p);
    assert w.store == w.store[..p] + w.store[p..];
    DueAppend(w.store[..p], w.store[p..], tick.now);
  }

  /** None of these calls makes the 32-bit count of an unbounded schedule wrap. */
  predicate NoWrap(attempts: seq<Attempt>, id: Id, schedule: Schedule) {
    !schedule.Finite() ==> forall a :: a in attempts && a.id == id ==> a.count != U32_MODULUS - 1
  }

  lemma AdvanceOnTime(e: Transmission, last: Time, now: Time, gap: nat)
    requires Consistent(e) && !IsDud(e) && Spaced(e.schedule, gap)
    requires !e.schedule.Finite() ==> e.transmissionCount != U32_MODULUS - 1
    requires OnTime(e, last) && now <= last + gap && Due(e, now)
    ensures now <= e.schedule.Next(e.transmissionCount).value + gap + MAX_DELAYED_AGE
    ensures Consistent(Advance(e)) && !IsDud(Advance(e)) && OnTime(Advance(e), now)
    ensures Advance(e).id == e.id && Advance(e).schedule == e.schedule
    ensures Advance(e).transmissionCount == e.transmissionCount + 1
  {
    TransmittedIsConsistent(e);
  }

  /** Every attempt for `id` comes at most a gap and a second after its occurrence is due. */
  predicate NeverLate(attempts: seq<Attempt>, id: Id, schedule: Schedule, gap: nat) {
    forall a :: a in attempts && a.id == id ==>
      schedule.Next(a.count).Some? && a.at <= schedule.Next(a.count).value + gap + MAX_DELAYED_AGE
  }

  lemma BatchNeverLate(w: World, tick: Tick, p: nat, last: Time, gap: nat)
    requires Sound(w.store) && ValidTick(w, tick) && p < |w.store|
    requires |DueOf(w.store, tick.now)| <= BATCH_SIZE && tick.failing == {} && !IsDud(w.store[p])
    requires OnTime(w.store[p], last) && last <= tick.now <= last + gap
    ensures NeverLate(AttemptsOf(Queue(w.store, tick.now), tick.now, {}), w.store[p].id, w.store[p].schedule, gap)
  {
    var e, queue := w.store[p], Queue(w.store, tick.now);
    QueueMembers(w.store, tick.now);
    AttemptMembers(queue, tick.now, {});
    forall a | a in AttemptsOf(queue, tick.now, {}) && a.id == e.id
      ensures e.schedule.Next(a.count).Some? && a.at <= e.schedule.Next(a.count).value + gap + MAX_DELAYED_AGE
    {
      var t :| t in queue && a == AttemptOf(t, tick.now, t.id !in {});
      SameIdSameEntry(w.store, t, e);
      DueTestsAgree(e, tick.now);
    }
  }

  /**
   Lateness bound: if every due entry fits each batch, sends succeed, polls are at most
   `gap` apart, the schedule's due times are at least `gap` apart and its count does not
   wrap (a finite schedule's never does; see NoWrapBeforeDue for the others), then no
   occurrence is sent more than `gap` plus one second late over the whole run, and
   after the last poll nothing due more than a second before it is still unsent.
   */
  lemma {:induction false} LatenessBound(w: World, ticks: seq<Tick>, p: nat, last: Time, gap: nat)
    requires Sound(w.store) && ValidRun(w, ticks) && SendsSucceed(ticks)
    requires PollsWithin(last, ticks, gap) && EveryDueFits(w, ticks)
    requires p < |w.store| && !IsDud(w.store[p])
    requires Spaced(w.store[p].schedule, gap)
    requires NoWrap(AttemptsIn(w, ticks), w.store[p].id, w.store[p].schedule)
    requires OnTime(w.store[p], last)
    ensures NeverLate(AttemptsIn(w, ticks), w.store[p].id, w.store[p].schedule, gap)
    ensures p < |AfterRun(w, ticks).store|
    ensures OnTime(AfterRun(w, ticks).store[p], if ticks == [] then last else ticks[|ticks| - 1].now)
    decreases ticks
  {
    if ticks != [] {
      var tick, later, e := ticks[0], ticks[1..], w.store[p];
      var now := AttemptsOf(Queue(w.store, tick.now), tick.now, {});
      assert AttemptsIn(w, ticks) == now + AttemptsIn(AfterBatch(w, tick), later);
      JoinAttempts(now, AttemptsIn(AfterBatch(w, tick), later), e.id, e.schedule, gap);
      BatchKeepsSound(w, tick);
      BatchNeverLate(w, tick, p, last, gap);
      BatchStaysOnTime(w, tick, p, last, gap);
      assert SendsSucceed(later);
      LatenessBound(AfterBatch(w, tick), later, p, tick.now, gap);
    }
  }

  lemma {:induction false} JoinAttempts(a: seq<Attempt>, b: seq<Attempt>, id: Id, schedule: Schedule, gap: nat)
    ensures NeverLate(a + b, id, schedule, gap) <==> NeverLate(a, id, schedule, gap) && NeverLate(b, id, schedule, gap)
    ensures NoWrap(a + b, id, schedule) <==> NoWrap(a, id, schedule) && NoWrap(b, id, schedule)
  {
    assert forall x :: x in a + b <==> x in a || x in b;
  }

  lemma BatchStaysOnTime(w: World, tick: Tick, p: nat, last: Time, gap: nat)
    requires Sound(w.store) && ValidTick(w, tick) && p < |w.store|
    requires |DueOf(w.store, tick.now)| <= BATCH_SIZE && tick.failing == {} && !IsDud(w.store[p])
    requires Spaced(w.store[p].schedule, gap)
    requires NoWrap(AttemptsOf(Queue(w.store, tick.now), tick.now, {}), w.store[p].id, w.store[p].schedule)
    requires OnTime(w.store[p], last) && last <= tick.now <= last + gap
    ensures var e, s' := w.store[p], AfterBatch(w, tick).store;
            && p < |s'| && s'[p].id == e.id && s'[p].schedule == e.schedule
            && !IsDud(s'[p]) && OnTime(s'[p], tick.now)
  {
    assert w.store[p] in w.store;
    FittingEntry(w, tick, p);
    if Due(w.store[p], tick.now) {
      QueuedIsAttempted(Queue(w.store, tick.now), tick.now, {}, w.store[p]);
      AdvanceOnTime(w.store[p], last, tick.now, gap);
    }
  }

  /** A clock that has not reached the due time of occurrence 2^32 - 1. */
  predicate BeforeWrap(schedule: Schedule, now: Time) {
    schedule.Next(U32_MODULUS - 1).Some? ==> now < schedule.Next(U32_MODULUS - 1).value
  }

  lemma BatchBeforeWrap(w: World, tick: Tick, e: Transmission)
    requires Sound(w.store) && e in w.store && BeforeWrap(e.schedule, tick.now)
    ensures NoWrap(AttemptsOf(Queue(w.store, tick.now), tick.now, tick.failing), e.id, e.schedule)
  {
    QueueIsJustified(w, tick.now, tick.failing, e);
    AttemptMembers(Queue(w.store, tick.now), tick.now, tick.failing);
  }

  /** A run that ends before occurrence 2^32 - 1 is due does not make the count wrap. */
  lemma {:induction false} NoWrapBeforeDue(w: World, ticks: seq<Tick>, p: nat)
    requires Sound(w.store) && ValidRun(w, ticks) && p < |w.store|
    requires forall i :: 0 <= i < |ticks| ==> BeforeWrap(w.store[p].schedule, ticks[i].now)
    ensures NoWrap(AttemptsIn(w, ticks), w.store[p].id, w.store[p].schedule)
    decreases ticks
  {
    if ticks != [] {
      BatchBeforeWrap(w, ticks[0], w.store[p]);
      EntryInBatch(w, ticks[0], p);
      BatchKeepsSound(w, ticks[0]);
      NoWrapBeforeDue(AfterBatch(w, ticks[0]), ticks[1..], p);
    }
  }

  /** An untouched Times(0) is never attempted. */
  lemma {:induction false} DudIsNeverAttempted(w: World, ticks: seq<Tick>, p: nat)
    requires Sound(w.store) && ValidRun(w, ticks) && p < |w.store| && IsDud(w.store[p])
    ensures forall a :: a in AttemptsIn(w, ticks) ==> a.id != w.store[p].id
    decreases ticks
  {
    if ticks != [] {
      var tick, e := ticks[0], w.store[p];
      EntryInBatch(w, tick, p);
      BatchKeepsSound(w, tick);
      QueueMembers(w.store, tick.now);
      AttemptMembers(Queue(w.store, tick.now), tick.now, tick.failing);
      forall t | t in Queue(w.store, tick.now) ensures t.id != e.id {
        if t.id == e.id {
          SameIdSameEntry(w.store, t, e);
        }
      }
      DudIsNeverAttempted(AfterBatch(w, tick), ticks[1..], p);
    }
  }

  /**
   From acceptance on: every accepted interval schedule, with polls no further apart
   than its interval. One planned Times(0) is never sent, so never late.
   */
  lemma {:induction false} AcceptedIntervalIsNeverLate(
      w: World, ticks: seq<Tick>, p: nat, accepted: Time, clockCycleInterval: nat, gap: nat)
    requires Sound(w.store) && ValidRun(w, ticks) && SendsSucceed(ticks)
    requires PollsWithin(accepted, ticks, gap) && EveryDueFits(w, ticks)
    requires p < |w.store| && NoWrap(AttemptsIn(w, ticks), w.store[p].id, w.store[p].schedule)
    requires var e := w.store[p];
             && e == NewTransmission(e.id, e.schedule, e.message)
             && e.schedule.Interval? && gap <= e.schedule.interval
             && ValidateSchedule(accepted, e.schedule, clockCycleInterval).Ok?
    ensures NeverLate(AttemptsIn(w, ticks), w.store[p].id, w.store[p].schedule, gap)
    ensures w.store[p].schedule.iterate != Times(0) ==>
              && p < |AfterRun(w, ticks).store|
              && OnTime(AfterRun(w, ticks).store[p], if ticks == [] then accepted else ticks[|ticks| - 1].now)
  {
    var e := w.store[p];
    NewIsConsistent(e.id, e.schedule, e.message);
    if e.schedule.iterate == Times(0) {
      DudIsNeverAttempted(w, ticks, p);
    } else {
      AcceptedIsOnTime(accepted, e.id, e.schedule, e.message, clockCycleInterval);
      IntervalIsSpaced(e.schedule, gap);
      LatenessBound(w, ticks, p, accepted, gap);
    }
  }
}
