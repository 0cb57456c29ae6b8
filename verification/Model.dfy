/**
 The occurrence state machine of src/model.rs: a schedule maps a transmission
 count to the time at which that occurrence is due, and a transmission moves
 from one count to the next each time it is sent.

 Times are whole nanoseconds. Counts are 32-bit and wrap, as they do in the
 release build that the Dockerfile makes.
 */
module Model {
  import opened Wrappers

  type Time = int
  type Id = nat

  const SECOND: Time := 1_000_000_000

  const U32_MODULUS := 0x1_0000_0000
  type U32 = x: int | 0 <= x < U32_MODULUS

  function WrappingIncrement(count: U32): U32 {
    (count + 1) % U32_MODULUS
  }

  datatype Message = NatsEvent(subject: string, payload: seq<bv8>)

  datatype Iterate = Infinitely | Times(repetitions: U32)

  /** A parsed cron expression: maps a time to the first matching time after it, if there is one. */
  type CronExpression = e: imap<Time, Time> | forall t :: t in e ==> t < e[t] witness imap[]

  datatype Schedule =
    | Delayed(transmitAt: Time)
    | Interval(firstTransmission: Time, interval: nat, iterate: Iterate)
    | Cron(firstTransmissionAfter: Time, expression: CronExpression, iterate: Iterate)
  {
    /** The time at which occurrence `count` is due, or None when the schedule has completed. */
    function Next(count: U32): Option<Time> {
      match this
      case Delayed(transmitAt) => if count == 0 then Some(transmitAt) else None
      case Interval(first, interval, iterate) =>
        if iterate.Times? && count >= iterate.repetitions then None
        else Some(first + interval * count)
      case Cron(after, expression, iterate) =>
        if iterate.Times? && count >= iterate.repetitions then None
        else Nth(expression, after, count)
    }

    /** The due time of a new transmission. Like the source, this does not consult `iterate`. */
    function FirstDue(): Option<Time> {
      match this
      case Delayed(transmitAt) => Some(transmitAt)
      case Interval(first, _, _) => Some(first)
      case Cron(after, expression, _) => Nth(expression, after, 0)
    }

    predicate Finite() {
      Delayed? || iterate.Times?
    }

    /** The planned number of transmissions. */
    function Limit(): U32
      requires Finite()
    {
      if Delayed? then 1 else iterate.repetitions
    }

    /** The highest count a transmission of this schedule can reach: max(Limit, 1). */
    function HighestCount(): U32
      requires Finite()
    {
      if Limit() == 0 then 1 else Limit()
    }
  }

  /** Element `k` of the times matching `expression` after `after`. */
  function Nth(expression: CronExpression, after: Time, k: nat): Option<Time>
    decreases k
  {
    if after !in expression then None
    else if k == 0 then Some(expression[after])
    else Nth(expression, expression[after], k - 1)
  }

  datatype TransmittedError = NotInStateToBeTransmitted

  datatype Transmission = Transmission(
    id: Id, schedule: Schedule, next: Option<Time>, transmissionCount: U32, message: Message)
  {
    /** The state after being transmitted. */
    function Transmitted(): Result<Transmission, TransmittedError> {
      if next.None? then Err(NotInStateToBeTransmitted)
      else
        var count := WrappingIncrement(transmissionCount);
        Ok(this.(next := schedule.Next(count), transmissionCount := count))
    }
  }

  function NewTransmission(id: Id, schedule: Schedule, message: Message): Transmission {
    Transmission(id, schedule, schedule.FirstDue(), 0, message)
  }

  // ---- Cron occurrences ----

  /** Occurrences of a cron expression strictly increase, and none follows a missing one. */
  lemma {:induction false} NthIncreases(e: CronExpression, after: Time, j: nat, k: nat)
    requires j <= k && Nth(e, after, k).Some?
    ensures Nth(e, after, j).Some?
    ensures after < Nth(e, after, j).value
    ensures j < k ==> Nth(e, after, j).value < Nth(e, after, k).value
    decreases k
  {
    if k > 0 {
      NthIncreases(e, e[after], if j == 0 then 0 else j - 1, k - 1);
    }
  }

  // ---- Due times, occurrence by occurrence ----

  /**
   The first due time of each kind of schedule: the stated time, or the first match after
   `firstTransmissionAfter`, whatever number of occurrences is planned.
   */
  lemma FirstOccurrence(schedule: Schedule)
    ensures schedule.Delayed? ==> schedule.FirstDue() == Some(schedule.transmitAt)
    ensures schedule.Interval? ==> schedule.FirstDue() == Some(schedule.firstTransmission)
    ensures schedule.Cron? ==>
              && (schedule.FirstDue().Some? <==> schedule.firstTransmissionAfter in schedule.expression)
              && (schedule.FirstDue().Some? ==>
                    schedule.FirstDue().value == schedule.expression[schedule.firstTransmissionAfter])
    ensures StartsAt(schedule, schedule.FirstDue())
  {
    if schedule.Interval? {
      assert schedule.interval * 0 == 0;
    }
  }

  /** Occurrence 0 is due at `first`, unless no occurrence is planned. */
  predicate StartsAt(schedule: Schedule, first: Option<Time>) {
    && (schedule.Next(0).Some? <==> first.Some? && !(schedule.Finite() && schedule.Limit() == 0))
    && (schedule.Next(0).Some? ==> schedule.Next(0) == first)
  }

  /**
   The due times as a recurrence from the first one on: a delayed schedule has one, an interval schedule adds
   its interval each time, and a cron schedule goes on to the first match after the
   previous one; each stops when the planned number is reached, a cron schedule also
   when nothing matches any more.
   */
  lemma OccurrenceRecurrence(schedule: Schedule, count: U32)
    requires count + 1 < U32_MODULUS && schedule.Next(count).Some?
    ensures StartsAt(schedule, schedule.FirstDue())
    ensures var due, next := schedule.Next(count).value, schedule.Next(count + 1);
            && (schedule.Finite() && count + 1 >= schedule.Limit() ==> next == None)
            && (schedule.Interval? && !(schedule.Finite() && count + 1 >= schedule.Limit()) ==>
                  next == Some(due + schedule.interval))
            && (schedule.Cron? && !(schedule.Finite() && count + 1 >= schedule.Limit()) ==>
                  next == if due in schedule.expression then Some(schedule.expression[due]) else None)
  {
    FirstOccurrence(schedule);
    match schedule
    case Delayed(_) =>
    case Interval(first, interval, _) =>
      assert interval * (count + 1) == interval * count + interval;
    case Cron(after, expression, _) =>
      NthIncreases(expression, after, 0, count);
      NthNext(expression, after, count);
  }

  lemma {:induction false} NthNext(e: CronExpression, after: Time, k: nat)
    requires Nth(e, after, k).Some?
    ensures Nth(e, after, k + 1)
            == if Nth(e, after, k).value in e then Some(e[Nth(e, after, k).value]) else None
    decreases k
  {
    if k > 0 {
      NthNext(e, e[after], k - 1);
    } else {
      assert Nth(e, after, 1) == Nth(e, e[after], 0);
    }
  }

  /** Consecutive due times of the schedule are at least `gap` apart. */
  predicate Spaced(schedule: Schedule, gap: nat) {
    forall c: U32, d: U32 :: d == c + 1 && schedule.Next(c).Some? && schedule.Next(d).Some?
      ==> schedule.Next(c).value + gap <= schedule.Next(d).value
  }

  lemma IntervalIsSpaced(schedule: Schedule, gap: nat)
    requires schedule.Interval? && gap <= schedule.interval
    ensures Spaced(schedule, gap)
  {
    forall c: U32, d: U32 | d == c + 1 ensures schedule.interval * d == schedule.interval * c + schedule.interval {
    }
  }

  // ---- What every reachable transmission satisfies ----

  /**
   A new transmission whose schedule was planned `Times(0)`: it has a due time,
   although its schedule says there is no occurrence to send.
   */
  predicate IsDud(t: Transmission) {
    t.next.Some? && t.schedule.Next(t.transmissionCount).None?
  }

  /** The stored due time is the schedule's own, whenever earlier occurrences were really sent. */
  predicate Consistent(t: Transmission) {
    && (t.schedule.Finite() ==> t.transmissionCount <= t.schedule.HighestCount())
    && (t.next == t.schedule.Next(t.transmissionCount)
        || (t.transmissionCount == 0 && t.schedule.Finite() && t.schedule.Limit() == 0
            && t.next == t.schedule.FirstDue()))
  }

  lemma NewIsConsistent(id: Id, schedule: Schedule, message: Message)
    ensures var t := NewTransmission(id, schedule, message);
            && Consistent(t)
            && (IsDud(t) <==> schedule.Finite() && schedule.Limit() == 0 && schedule.FirstDue().Some?)
  {
    if schedule.Interval? {
      assert schedule.interval * 0 == 0;
    }
  }

  /**
   Transmitting keeps a transmission consistent and clears an untouched `Times(0)`.
   A finite schedule never overflows its 32-bit count.
   */
  lemma TransmittedIsConsistent(t: Transmission)
    requires Consistent(t) && t.next.Some?
    ensures var t' := t.Transmitted().value;
            && Consistent(t') && !IsDud(t')
            && t'.id == t.id && t'.schedule == t.schedule && t'.message == t.message
            && t'.next == t.schedule.Next(t'.transmissionCount)
            && (t.schedule.Finite() ==> t'.transmissionCount == t.transmissionCount + 1)
  {
  }

  /** What the i-th call of Transmitted in a row yields. */
  function TransmittedTimes(t: Transmission, k: nat): Result<Transmission, TransmittedError> {
    if k == 0 then Ok(t)
    else match TransmittedTimes(t, k - 1)
      case Ok(u) => u.Transmitted()
      case Err(e) => Err(e)
  }

  /** For a schedule, whether all occurrences `from..to` exist. */
  predicate AllOccur(schedule: Schedule, from: nat, to: nat)
    requires to <= U32_MODULUS
  {
    forall c :: from <= c < to ==> schedule.Next(c).Some?
  }

  /**
   No drift, in closed form: transmitting a new transmission k times succeeds
   exactly when it had a first due time and occurrences 1..k-1 exist, and then the
   result depends on k alone.
   */
  lemma {:induction false} TransmittedClosedForm(id: Id, schedule: Schedule, message: Message, k: nat)
    requires 0 < k < U32_MODULUS
    ensures var r := TransmittedTimes(NewTransmission(id, schedule, message), k);
            && (r.Ok? <==> schedule.FirstDue().Some? && AllOccur(schedule, 1, k))
            && (r.Ok? ==> r.value == Transmission(id, schedule, schedule.Next(k), k, message))
  {
    if k > 1 {
      TransmittedClosedForm(id, schedule, message, k - 1);
      if AllOccur(schedule, 1, k - 1) && schedule.Next(k - 1).Some? {
        assert AllOccur(schedule, 1, k);
      }
    } else {
      assert TransmittedTimes(NewTransmission(id, schedule, message), 0).Ok?;
      assert AllOccur(schedule, 1, 1);
    }
  }

  /** `next` is absorbing at None and a finite schedule admits at most HighestCount transmissions. */
  lemma {:induction false} SendLimit(id: Id, schedule: Schedule, message: Message, k: nat)
    requires schedule.Finite() && k > schedule.HighestCount()
    ensures TransmittedTimes(NewTransmission(id, schedule, message), k).Err?
    decreases k
  {
    if k == schedule.HighestCount() + 1 {
      assert schedule.Next(schedule.HighestCount()).None?;
      TransmittedClosedForm(id, schedule, message, schedule.HighestCount());
    } else {
      SendLimit(id, schedule, message, k - 1);
    }
  }

  /**
   For a schedule whose interval is positive, due times strictly increase and no
   occurrence follows a missing one.
   */
  lemma DueTimesIncrease(schedule: Schedule, j: U32, k: U32)
    requires schedule.Interval? ==> schedule.interval > 0
    requires j < k && schedule.Next(k).Some?
    ensures schedule.Next(j).Some? && schedule.Next(j).value < schedule.Next(k).value
  {
    match schedule
    case Delayed(_) =>
    case Interval(first, interval, _) =>
      assert interval * k - interval * j == interval * (k - j);
      assert interval * (k - j) > 0;
    case Cron(after, expression, _) => NthIncreases(expression, after, j, k);
  }

  // ---- Sends still to come ----

  /** How many occurrences of a finite schedule exist from `count` on. */
  function Remaining(schedule: Schedule, count: U32): (r: nat)
    requires schedule.Finite()
    ensures r == 0 <==> schedule.Next(count).None?
    ensures r > 0 ==> count + r <= schedule.Limit()
    decreases schedule.Limit() - count
  {
    if schedule.Next(count).None? then 0 else 1 + Remaining(schedule, count + 1)
  }

  /** How many occurrences a finite schedule has in all. */
  function Planned(schedule: Schedule): nat
    requires schedule.Finite()
  {
    Remaining(schedule, 0)
  }

  lemma {:induction false} PlannedSplit(schedule: Schedule, count: U32)
    requires schedule.Finite() && forall c: U32 :: c < count ==> schedule.Next(c).Some?
    ensures Planned(schedule) == count + Remaining(schedule, count)
  {
    if count > 0 {
      PlannedSplit(schedule, count - 1);
    }
  }
}
