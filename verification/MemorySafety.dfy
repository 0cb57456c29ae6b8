/**
 What holds over every run of the scheduler on the in-memory repository, with one
 batch loop, any clock, any pattern of failing sends and any transmissions stored
 meanwhile: exactly-once accounting, the send limit, due times and rates, and
 conservation of the metrics.
 */
module MemorySafety {
  import opened Model
  import opened InMemory
  import opened Scheduler
  import opened BatchEffect

  // ---- Runs ----

  /** Transmissions that other tasks store are new and have fresh ids. */
  predicate ValidTick(w: World, tick: Tick) {
    && DistinctIds(w.store + Flatten(tick.arrivals))
    && forall t :: t in Flatten(tick.arrivals) ==> t == NewTransmission(t.id, t.schedule, t.message)
  }

  predicate ValidRun(w: World, ticks: seq<Tick>)
    decreases ticks
  {
    ticks == [] || (ValidTick(w, ticks[0]) && ValidRun(AfterBatch(w, ticks[0]), ticks[1..]))
  }

  const INITIAL := World([], [], NO_METRICS)

  // ---- Exactly-once accounting ----

  /** The occurrences of `id` that were sent successfully, in the order of sending. */
  function Delivered(attempts: seq<Attempt>, id: Id): (r: seq<U32>)
    ensures |r| <= |attempts|
  {
    if attempts == [] then []
    else (if attempts[0].id == id && attempts[0].ok then [attempts[0].count] else []) + Delivered(attempts[1..], id)
  }

  lemma {:induction false} DeliveredAppend(a: seq<Attempt>, b: seq<Attempt>, id: Id)
    ensures Delivered(a + b, id) == Delivered(a, id) + Delivered(b, id)
  {
    if a == [] {
      assert a + b == b;
    } else {
      assert (a + b)[0] == a[0] && (a + b)[1..] == a[1..] + b;
      DeliveredAppend(a[1..], b, id);
    }
  }

  /** Occurrences 0, 1, 2, ... in order, each exactly once (counts are 32-bit). */
  predicate InOrder(counts: seq<U32>) {
    forall k :: 0 <= k < |counts| ==> counts[k] == k % U32_MODULUS
  }

  /** A call of the transmitter sent the right message, and not before the occurrence was due. */
  predicate Justified(a: Attempt, t: Transmission) {
    && a.message == t.message
    && t.schedule.Next(a.count).Some?
    && t.schedule.Next(a.count).value <= a.at
  }

  predicate Accounted(t: Transmission, attempts: seq<Attempt>) {
    var delivered := Delivered(attempts, t.id);
    && InOrder(delivered)
    && t.transmissionCount == |delivered| % U32_MODULUS
    && (t.schedule.Finite() ==> |delivered| <= t.schedule.Limit())
    && forall a :: a in attempts && a.id == t.id ==> Justified(a, t)
  }

  predicate Known(attempts: seq<Attempt>, s: seq<Transmission>) {
    forall a :: a in attempts ==> exists t :: t in s && t.id == a.id
  }

  /** The invariant of the store alone. */
  predicate Sound(s: seq<Transmission>) {
    && DistinctIds(s)
    && forall t :: t in s ==> Consistent(t)
  }

  predicate Inv(w: World) {
    && Sound(w.store)
    && (forall t :: t in w.store ==> Accounted(t, w.attempts))
    && Known(w.attempts, w.store)
  }

  lemma InvInitially()
    ensures Inv(INITIAL)
  {
  }

  lemma {:induction false} AttemptMembers(queue: seq<Transmission>, now: Time, failing: set<Id>)
    ensures forall a :: a in AttemptsOf(queue, now, failing) ==>
              exists t :: t in queue && a == AttemptOf(t, now, t.id !in failing)
  {
    if queue != [] {
      AttemptMembers(queue[1..], now, failing);
      forall a | a in AttemptsOf(queue, now, failing)
        ensures exists t :: t in queue && a == AttemptOf(t, now, t.id !in failing)
      {
        if a in AttemptsOf(queue[1..], now, failing) {
          var t :| t in queue[1..] && a == AttemptOf(t, now, t.id !in failing);
          assert t in queue;
        } else {
          assert queue[0] in queue;
        }
      }
    }
  }

  /** A queue with distinct ids delivers at most one occurrence of each id. */
  lemma {:induction false} QueueDelivers(queue: seq<Transmission>, now: Time, failing: set<Id>, t: Transmission)
    requires DistinctIds(queue)
    requires forall u :: u in queue && u.id == t.id ==> u == t
    ensures Delivered(AttemptsOf(queue, now, failing), t.id)
            == if t in queue && t.id !in failing then [t.transmissionCount] else []
  {
    if queue != [] {
      assert DistinctIds(queue[1..]);
      QueueDelivers(queue[1..], now, failing, t);
      assert queue == [queue[0]] + queue[1..];
      if queue[0].id == t.id {
        assert t !in queue[1..];
      }
    }
  }

  lemma SameIdSameEntry(s: seq<Transmission>, t: Transmission, u: Transmission)
    requires DistinctIds(s) && t in s && u in s && t.id == u.id
    ensures t == u
  {
  }

  lemma {:induction false} QueueIsJustified(w: World, now: Time, failing: set<Id>, t: Transmission)
    requires DistinctIds(w.store) && t in w.store
    ensures forall a :: a in AttemptsOf(Queue(w.store, now), now, failing) && a.id == t.id ==> Justified(a, t)
  {
    var queue := Queue(w.store, now);
    QueueMembers(w.store, now);
    AttemptMembers(queue, now, failing);
    forall a | a in AttemptsOf(queue, now, failing) && a.id == t.id ensures Justified(a, t) {
      var u :| u in queue && a == AttemptOf(u, now, u.id !in failing);
      SameIdSameEntry(w.store, u, t);
    }
  }

  lemma OneMoreInOrder(counts: seq<U32>, count: U32)
    requires InOrder(counts) && count == |counts| % U32_MODULUS
    ensures InOrder(counts + [count])
    ensures WrappingIncrement(count) == |counts + [count]| % U32_MODULUS
  {
  }

  predicate AllJustified(attempts: seq<Attempt>, t: Transmission) {
    forall a :: a in attempts && a.id == t.id ==> Justified(a, t)
  }

  lemma {:induction false} AccountedUnsent(t: Transmission, attempts: seq<Attempt>, more: seq<Attempt>)
    requires Accounted(t, attempts) && AllJustified(more, t) && Delivered(more, t.id) == []
    ensures Accounted(t, attempts + more)
  {
    DeliveredAppend(attempts, more, t.id);
    assert Delivered(attempts, t.id) + [] == Delivered(attempts, t.id);
  }

  lemma {:induction false} AccountedSent(t: Transmission, attempts: seq<Attempt>, more: seq<Attempt>)
    requires Consistent(t) && t.next.Some? && t.schedule.Next(t.transmissionCount).Some?
    requires Accounted(t, attempts) && AllJustified(more, t) && Delivered(more, t.id) == [t.transmissionCount]
    ensures Accounted(Advance(t), attempts + more)
  {
    var t' := Advance(t);
    DeliveredAppend(attempts, more, t.id);
    TransmittedIsConsistent(t);
    OneMoreInOrder(Delivered(attempts, t.id), t.transmissionCount);
    forall a | a in attempts + more && a.id == t.id ensures Justified(a, t') {
      assert Justified(a, t);
    }
  }

  /** One entry of the polled list stays accounted for. */
  lemma {:induction false} EntryStaysAccounted(
      w: World, queue: seq<Transmission>, now: Time, failing: set<Id>, t: Transmission)
    requires DistinctIds(w.store) && t in w.store && Consistent(t) && Accounted(t, w.attempts)
    requires queue == Queue(w.store, now)
    ensures Accounted(if t in queue && t.id !in failing then Advance(t) else t,
                      w.attempts + AttemptsOf(queue, now, failing))
  {
    QueueMembers(w.store, now);
    forall u | u in queue && u.id == t.id ensures u == t {
      SameIdSameEntry(w.store, u, t);
    }
    QueueDelivers(queue, now, failing, t);
    QueueIsJustified(w, now, failing, t);
    if t in queue && t.id !in failing {
      AccountedSent(t, w.attempts, AttemptsOf(queue, now, failing));
    } else {
      AccountedUnsent(t, w.attempts, AttemptsOf(queue, now, failing));
    }
  }

  lemma {:induction false} NothingDelivered(attempts: seq<Attempt>, id: Id)
    requires forall a :: a in attempts ==> a.id != id
    ensures Delivered(attempts, id) == []
  {
    if attempts != [] {
      NothingDelivered(attempts[1..], id);
    }
  }

  /** A transmission that was stored meanwhile starts with nothing sent. */
  lemma ArrivalIsAccounted(attempts: seq<Attempt>, t: Transmission)
    requires forall a :: a in attempts ==> a.id != t.id
    requires t == NewTransmission(t.id, t.schedule, t.message)
    ensures Consistent(t) && Accounted(t, attempts)
  {
    NothingDelivered(attempts, t.id);
    NewIsConsistent(t.id, t.schedule, t.message);
  }

  lemma {:induction false} AttemptsStayKnown(
      w: World, queue: seq<Transmission>, now: Time, failing: set<Id>, arrived: seq<Transmission>)
    requires Inv(w) && queue == Queue(w.store, now)
    ensures Known(w.attempts + AttemptsOf(queue, now, failing), ServedBy(w.store, queue, failing) + arrived)
  {
    QueueMembers(w.store, now);
    AttemptMembers(queue, now, failing);
    var s, s' := w.store, ServedBy(w.store, queue, failing) + arrived;
    forall a | a in w.attempts + AttemptsOf(queue, now, failing) ensures exists t :: t in s' && t.id == a.id {
      var t :| t in s && t.id == a.id;
      var i :| 0 <= i < |s| && s[i] == t;
      assert s'[i].id == a.id && s'[i] in s';
    }
  }

  lemma BatchKeepsSound(w: World, tick: Tick)
    requires Sound(w.store) && ValidTick(w, tick)
    ensures Sound(AfterBatch(w, tick).store)
  {
    var s, arrived := w.store, Flatten(tick.arrivals);
    var served := ServedBy(s, Queue(s, tick.now), tick.failing);
    BatchIsOnePass(w, tick);
    DistinctAppend(s, arrived);
    assert forall i :: 0 <= i < |s| ==> served[i].id == s[i].id;
    forall x, y | x in served && y in arrived ensures x.id != y.id {
      var i :| 0 <= i < |s| && served[i] == x;
      assert s[i] in s;
    }
    DistinctAppend(served, arrived);
    forall t | t in served + arrived ensures Consistent(t) {
      if t in served {
        var i :| 0 <= i < |s| && served[i] == t;
        assert s[i] in s;
        if s[i].next.Some? {
          TransmittedIsConsistent(s[i]);
        }
      } else {
        NewIsConsistent(t.id, t.schedule, t.message);
      }
    }
  }

  lemma BatchKeepsInv(w: World, tick: Tick)
    requires Inv(w) && ValidTick(w, tick)
    ensures Inv(AfterBatch(w, tick))
  {
    var w', s, arrived := AfterBatch(w, tick), w.store, Flatten(tick.arrivals);
    var queue := Queue(s, tick.now);
    BatchKeepsSound(w, tick);
    BatchIsOnePass(w, tick);
    var served := ServedBy(s, queue, tick.failing);
    AttemptsStayKnown(w, queue, tick.now, tick.failing, arrived);
    AttemptsStayKnown(w, queue, tick.now, tick.failing, []);
    DistinctAppend(served, arrived);
    forall t | t in w'.store ensures Accounted(t, w'.attempts) {
      if t in served {
        var i :| 0 <= i < |s| && served[i] == t;
        EntryStaysAccounted(w, queue, tick.now, tick.failing, s[i]);
      } else {
        assert t in arrived;
        forall a | a in w'.attempts ensures a.id != t.id {
          var u :| u in served + [] && u.id == a.id;
        }
        ArrivalIsAccounted(w'.attempts, t);
      }
    }
  }

  /**
   Exactly-once accounting: in every run, the successful sends of each stored id are
   occurrences 0, 1, 2, ... in order up to its count, never more than planned, and no
   call of the transmitter is ever made before its occurrence is due.
   */
  lemma {:induction false} ExactlyOnce(w: World, ticks: seq<Tick>)
    requires Inv(w) && ValidRun(w, ticks)
    ensures Inv(AfterRun(w, ticks))
    decreases ticks
  {
    if ticks != [] {
      BatchKeepsInv(w, ticks[0]);
      ExactlyOnce(AfterBatch(w, ticks[0]), ticks[1..]);
    }
  }

  function FirstOccurrences(n: U32): seq<U32> {
    seq(n, k requires 0 <= k < n => k)
  }

  /** For a finite schedule the deliveries are exactly occurrences 0..count-1: the 32-bit count never wraps. */
  lemma {:induction false} FiniteDeliveries(t: Transmission, attempts: seq<Attempt>)
    requires Accounted(t, attempts) && t.schedule.Finite()
    ensures Delivered(attempts, t.id) == FirstOccurrences(t.transmissionCount)
  {
    var delivered := Delivered(attempts, t.id);
    assert t.transmissionCount == |delivered|;
    forall k | 0 <= k < |delivered| ensures delivered[k] == k {
      assert k % U32_MODULUS == k;
    }
  }

  /** An entry whose send failed is stored unchanged, so it is still due at any later time. */
  lemma FailedStaysDue(w: World, tick: Tick, i: nat, later: Time)
    requires ValidTick(w, tick) && i < |w.store|
    requires w.store[i] in Queue(w.store, tick.now) && w.store[i].id in tick.failing
    requires tick.now <= later
    ensures |AfterBatch(w, tick).store| >= |w.store| && AfterBatch(w, tick).store[i] == w.store[i]
    ensures Due(AfterBatch(w, tick).store[i], later)
  {
    DistinctAppend(w.store, Flatten(tick.arrivals));
    BatchIsOnePass(w, tick);
    QueueMembers(w.store, tick.now);
  }

  // ---- Rate ----

  /** The two validators together rule out a zero interval. */
  lemma AcceptedIntervalIsPositive(now: Time, schedule: Schedule, clockCycleInterval: nat)
    requires ValidConfig(clockCycleInterval)
    requires ValidateSchedule(now, schedule, clockCycleInterval).Ok? && schedule.Interval?
    ensures schedule.interval > 0
  {
  }

  lemma {:induction false} DeliveredWasAttempted(attempts: seq<Attempt>, id: Id, k: nat)
    requires k < |Delivered(attempts, id)|
    ensures exists a :: a in attempts && a.id == id && a.ok && a.count == Delivered(attempts, id)[k]
  {
    if attempts[0].id == id && attempts[0].ok {
      if k == 0 {
        assert attempts[0] in attempts;
      } else {
        DeliveredWasAttempted(attempts[1..], id, k - 1);
      }
    } else {
      DeliveredWasAttempted(attempts[1..], id, k);
    }
  }

  lemma ProductGrows(interval: nat, j: nat, k: nat)
    requires j <= k
    ensures interval * j <= interval * k
  {
    assert interval * k == interval * j + interval * (k - j);
  }

  lemma QuotientBound(interval: nat, k: nat, span: nat)
    requires interval > 0 && interval * k <= span
    ensures k <= span / interval
  {
    var q := span / interval;
    assert span < interval * q + interval;
    assert interval * (q + 1) == interval * q + interval;
    if k > q {
      ProductGrows(interval, q + 1, k);
    }
  }

  /** The occurrences of `id` that were sent successfully at clock readings up to `until`. */
  function DeliveredBy(attempts: seq<Attempt>, id: Id, until: Time): seq<U32> {
    if attempts == [] then []
    else (if attempts[0].id == id && attempts[0].ok && attempts[0].at <= until then [attempts[0].count] else [])
         + DeliveredBy(attempts[1..], id, until)
  }

  /** How many of the counts are at most `limit`. */
  function UpTo(counts: seq<U32>, limit: int): nat {
    if counts == [] then 0 else (if counts[0] <= limit then 1 else 0) + UpTo(counts[1..], limit)
  }

  lemma {:induction false} UpToCons(count: U32, counts: seq<U32>, limit: int)
    ensures UpTo([count] + counts, limit) == (if count <= limit then 1 else 0) + UpTo(counts, limit)
  {
    assert ([count] + counts)[1..] == counts;
  }

  lemma {:induction false} DeliveredByIsUpTo(attempts: seq<Attempt>, id: Id, until: Time, limit: int)
    requires forall a :: a in attempts && a.id == id && a.at <= until ==> a.count <= limit
    ensures |DeliveredBy(attempts, id, until)| <= UpTo(Delivered(attempts, id), limit)
  {
    if attempts != [] {
      DeliveredByIsUpTo(attempts[1..], id, until, limit);
      if attempts[0].id == id && attempts[0].ok {
        UpToCons(attempts[0].count, Delivered(attempts[1..], id), limit);
        assert attempts[0] in attempts;
      } else {
        assert Delivered(attempts, id) == Delivered(attempts[1..], id);
      }
    }
  }

  /** Of consecutive counts from `base` on, at most limit + 1 - base are up to `limit`. */
  lemma {:induction false} UpToOfConsecutive(counts: seq<U32>, base: nat, limit: int)
    requires forall i :: 0 <= i < |counts| ==> counts[i] == base + i
    ensures UpTo(counts, limit) <= if limit < base then 0 else limit + 1 - base
  {
    if counts != [] {
      UpToOfConsecutive(counts[1..], base + 1, limit);
    }
  }

  /** floor((until - first) / interval), or -1 before `first`. */
  function LastDueBy(first: Time, interval: nat, until: Time): int
    requires interval > 0
  {
    if until < first then -1 else (until - first) / interval
  }

  lemma JustifiedBy(t: Transmission, a: Attempt, until: Time)
    requires t.schedule.Interval? && t.schedule.interval > 0
    requires Justified(a, t) && a.at <= until
    ensures a.count <= LastDueBy(t.schedule.firstTransmission, t.schedule.interval, until)
  {
    var first, interval := t.schedule.firstTransmission, t.schedule.interval;
    ProductGrows(interval, 0, a.count);
    assert first + interval * a.count <= until;
    QuotientBound(interval, a.count, until - first);
  }

  /**
   Rate bound, for any clock: of the sends of an interval schedule, at most
   floor((T - first) / interval) + 1 succeed at clock readings up to T, and none before
   `first`. The 32-bit count must not have wrapped, which it never does for a finite
   schedule.
   */
  lemma {:induction false} RateBound(t: Transmission, attempts: seq<Attempt>, until: Time)
    requires Accounted(t, attempts) && |Delivered(attempts, t.id)| <= U32_MODULUS
    requires t.schedule.Interval? && t.schedule.interval > 0
    ensures |DeliveredBy(attempts, t.id, until)|
            <= LastDueBy(t.schedule.firstTransmission, t.schedule.interval, until) + 1
  {
    var limit := LastDueBy(t.schedule.firstTransmission, t.schedule.interval, until);
    var delivered := Delivered(attempts, t.id);
    forall a | a in attempts && a.id == t.id && a.at <= until ensures a.count <= limit {
      JustifiedBy(t, a, until);
    }
    DeliveredByIsUpTo(attempts, t.id, until, limit);
    forall k | 0 <= k < |delivered| ensures delivered[k] == 0 + k {
      assert k % U32_MODULUS == k;
    }
    UpToOfConsecutive(delivered, 0, limit);
  }

  lemma {:induction false} DeliveredWhenDue(t: Transmission, attempts: seq<Attempt>, k: U32)
    requires Accounted(t, attempts) && k < |Delivered(attempts, t.id)|
    ensures exists a :: a in attempts && a.count == k && Justified(a, t)
  {
    assert k % U32_MODULUS == k;
    assert Delivered(attempts, t.id)[k] == k;
    DeliveredWasAttempted(attempts, t.id, k);
  }

  /** The count of an interval schedule cannot have wrapped before its 2^32-th occurrence was due. */
  lemma {:induction false} WrapTakesTime(t: Transmission, attempts: seq<Attempt>, until: Time)
    requires Accounted(t, attempts) && t.schedule.Interval?
    requires forall a :: a in attempts ==> a.at <= until
    requires until < t.schedule.firstTransmission + t.schedule.interval * (U32_MODULUS - 1)
    ensures |Delivered(attempts, t.id)| < U32_MODULUS
  {
    if |Delivered(attempts, t.id)| >= U32_MODULUS {
      DeliveredWhenDue(t, attempts, U32_MODULUS - 1);
    }
  }

  // ---- Metrics ----

  function Failures(attempts: seq<Attempt>): nat {
    if attempts == [] then 0 else (if attempts[0].ok then 0 else 1) + Failures(attempts[1..])
  }

  lemma {:induction false} FailuresAppend(a: seq<Attempt>, b: seq<Attempt>)
    ensures Failures(a + b) == Failures(a) + Failures(b)
  {
    if a == [] {
      assert a + b == b;
    } else {
      assert (a + b)[0] == a[0] && (a + b)[1..] == a[1..] + b;
      FailuresAppend(a[1..], b);
    }
  }

  function Successes(attempts: seq<Attempt>): nat {
    if attempts == [] then 0 else (if attempts[0].ok then 1 else 0) + Successes(attempts[1..])
  }

  lemma {:induction false} SuccessesAppend(a: seq<Attempt>, b: seq<Attempt>)
    ensures Successes(a + b) == Successes(a) + Successes(b)
  {
    if a == [] {
      assert a + b == b;
    } else {
      assert (a + b)[0] == a[0] && (a + b)[1..] == a[1..] + b;
      SuccessesAppend(a[1..], b);
    }
  }

  /**
   Every counter, in terms of the calls of the transmitter, the store and the number of
   batches: each successful call was saved, each failed one rescheduled, and nothing else failed.
   */
  predicate MetricsAgree(w: World, batches: nat) {
    var m := w.metrics;
    && m.transmittedOk == m.savedOk == Successes(w.attempts)
    && m.transmittedErr == m.rescheduledOk == Failures(w.attempts)
    && m.scheduledOk == |w.store|
    && m.polledOk == batches
    && m.scheduledErr == m.polledErr == m.savedErr == m.rescheduledErr == 0
  }

  lemma {:induction false} OneCallKeepsMetrics(
      w: World, batches: nat, t: Transmission, now: Time, sent: bool, arriving: seq<Transmission>)
    requires MetricsAgree(w, batches) && t.next.Some?
    ensures MetricsAgree(AfterOne(w, t, now, sent, arriving), batches)
  {
    var call := AttemptOf(t, now, sent);
    SuccessesAppend(w.attempts, [call]);
    FailuresAppend(w.attempts, [call]);
    assert Successes([call]) + Failures([call]) == 1;
  }

  /** A sent transmission that could not be advanced would be counted as not transmitted; no run has one. */
  lemma {:induction false} UnexpectedSend(w: World, t: Transmission, now: Time, arriving: seq<Transmission>)
    requires t.next.None?
    ensures var before, after := Arrive(w, arriving), AfterOne(w, t, now, true, arriving);
            && after.store == before.store
            && after.metrics == before.metrics.(transmittedErr := w.metrics.transmittedErr + 1)
  {
  }

  lemma {:induction false} LoopKeepsMetrics(w: World, batches: nat, queue: seq<Transmission>, tick: Tick)
    requires MetricsAgree(w, batches)
    requires forall t :: t in queue ==> t.next.Some?
    ensures MetricsAgree(AfterAll(w, queue, tick), batches)
    decreases queue
  {
    if queue != [] {
      assert queue[0] in queue;
      var sent := queue[0].id !in tick.failing;
      OneCallKeepsMetrics(w, batches, queue[0], tick.now, sent, First(tick.arrivals));
      LoopKeepsMetrics(
        AfterOne(w, queue[0], tick.now, sent, First(tick.arrivals)), batches,
        queue[1..], tick.(arrivals := Rest(tick.arrivals)));
    }
  }

  /**
   Metric conservation over whole runs, for any ticks: each call of the transmitter was
   resolved by exactly one Transmitted event with its outcome, and the branch for a
   message that ought not to have been sent is never taken.
   */
  lemma {:induction false} MetricConservation(w: World, batches: nat, ticks: seq<Tick>)
    requires MetricsAgree(w, batches)
    ensures MetricsAgree(AfterRun(w, ticks), batches + |ticks|)
    decreases ticks
  {
    if ticks != [] {
      PolledAreDueEntries(w.store, ticks[0].now, BATCH_SIZE);
      RelevantMembers(Poll(w.store, ticks[0].now, BATCH_SIZE), ticks[0].now);
      LoopKeepsMetrics(
        w.(metrics := w.metrics.Count(Polled(true))), batches + 1, Queue(w.store, ticks[0].now), ticks[0]);
      MetricConservation(AfterBatch(w, ticks[0]), batches + 1, ticks[1..]);
    }
  }

  lemma {:induction false} MetricsOfRun(ticks: seq<Tick>)
    ensures MetricsAgree(AfterRun(INITIAL, ticks), |ticks|)
  {
    MetricConservation(INITIAL, 0, ticks);
  }
}
