/**
 How fast the in-memory scheduler works off a backlog in which every planned
 occurrence is already due.
 */
module MemoryDrain {
  import opened Model
  import opened InMemory
  import opened Scheduler
  import opened BatchEffect
  import opened MemorySafety
  import opened MemoryProgress

  /** Every occurrence still to come is already due. */
  predicate Overdue(t: Transmission, now: Time) {
    forall c: U32 :: t.transmissionCount <= c && t.schedule.Next(c).Some? ==> t.schedule.Next(c).value <= now
  }

  predicate AllOverdue(s: seq<Transmission>, now: Time) {
    forall t :: t in s ==> Overdue(t, now)
  }

  /** The largest number of sends still to come of any one entry. */
  function Peak(s: seq<Transmission>): nat
    requires AllFinite(s)
  {
    if s == [] then 0
    else
      assert s[0] in s;
      assert forall t :: t in s[1..] ==> t in s;
      var rest := Peak(s[1..]);
      if RemainingOf(s[0]) > rest then RemainingOf(s[0]) else rest
  }

  lemma {:induction false} PeakAndWork(s: seq<Transmission>)
    requires AllFinite(s)
    ensures Peak(s) <= Work(s)
    ensures Peak(s) == 0 ==> Work(s) == 0
  {
    if s != [] {
      assert s[0] in s;
      assert forall t :: t in s[1..] ==> t in s;
      PeakAndWork(s[1..]);
    }
  }

  lemma OverdueOutcome(t: Transmission, from: Time, now: Time)
    requires t.schedule.Finite() && Consistent(t) && Overdue(t, from) && from <= now
    ensures Overdue(Outcome(t, now, {}), from)
    ensures RemainingOf(t) > 0 ==> Due(t, now) && RemainingOf(Outcome(t, now, {})) == RemainingOf(t) - 1
    ensures RemainingOf(t) == 0 ==> RemainingOf(Outcome(t, now, {})) == 0
  {
    OutcomeProgress(t, now, {});
    if Relevant(t, now) {
      TransmittedIsConsistent(t);
    }
  }

  /** A pass either uses its whole capacity or advances every entry that has work left. */
  lemma {:induction false} PassDrains(s: seq<Transmission>, from: Time, now: Time, cap: nat)
    requires AllFinite(s) && AllOverdue(s, from) && from <= now
    ensures var s' := Served(s, now, {}, cap);
            && AllFinite(s') && AllOverdue(s', from)
            && Peak(s') <= Peak(s)
            && (|Poll(s, now, cap)| < cap && Peak(s) > 0 ==> Peak(s') == Peak(s) - 1)
  {
    if s != [] && cap > 0 {
      assert s[0] in s;
      assert forall t :: t in s[1..] ==> t in s;
      var cap' := if Due(s[0], now) then cap - 1 else cap;
      PassDrains(s[1..], from, now, cap');
      OverdueOutcome(s[0], from, now);
      OutcomeProgress(s[0], now, {});
      var s' := Served(s, now, {}, cap);
      assert s'[1..] == Served(s[1..], now, {}, cap');
      assert forall t :: t in s' ==> t == s'[0] || t in s'[1..];
    }
  }

  // ---- The entries before position p, whatever is pushed behind them ----

  /** The first p entries: finite schedules, all of whose planned occurrences are due at `from`. */
  predicate Backlog(s: seq<Transmission>, p: nat, from: Time) {
    p <= |s| && AllFinite(s[..p]) && AllOverdue(s[..p], from)
  }

  lemma {:induction false} NothingFailed(s: seq<Transmission>, now: Time)
    ensures Failures(AttemptsOf(Queue(s, now), now, {})) == 0
  {
    AttemptMembers(Queue(s, now), now, {});
    NoFailures(AttemptsOf(Queue(s, now), now, {}));
  }

  lemma {:induction false} OneBatchDrains(w: World, tick: Tick, p: nat, from: Time, end: Time)
    requires Sound(w.store) && ValidTick(w, tick) && tick.failing == {} && from <= tick.now <= end
    requires Backlog(w.store, p, from)
    ensures var a, s' := w.store[..p], AfterBatch(w, tick).store;
            && Backlog(s', p, from) && DueDuds(s'[..p], end) == DueDuds(a, end)
            && Peak(s'[..p]) <= Peak(a)
            && (|| Work(s'[..p]) + BATCH_SIZE <= Work(a) + DueDuds(a, end)
                || Peak(a) == 0
                || Peak(s'[..p]) == Peak(a) - 1)
            && Work(s'[..p]) <= Work(a)
  {
    var a := w.store[..p];
    PrefixAfterBatch(w, tick, p);
    AheadAfterBatch(w, tick, p, end);
    NothingFailed(w.store, tick.now);
    PassProgress(a, tick.now, {}, BATCH_SIZE, end);
    PassDrains(a, from, tick.now, BATCH_SIZE);
    PollAppend(a, [], tick.now, BATCH_SIZE);
  }

  /** One batch uses up a round of capacity, or brings the peak down, or finds nothing to do. */
  lemma OneBatchLess(w: World, tick: Tick, p: nat, from: Time, end: Time, rounds: nat, room: nat) returns (left: nat)
    requires Sound(w.store) && ValidTick(w, tick) && tick.failing == {} && from <= tick.now <= end
    requires Backlog(w.store, p, from)
    requires room > 0 && room == BATCH_SIZE - DueDuds(w.store[..p], end)
    requires Work(w.store[..p]) < (rounds + 1) * room
    ensures var a, s' := w.store[..p], AfterBatch(w, tick).store;
            && Backlog(s', p, from) && DueDuds(s'[..p], end) == DueDuds(a, end)
            && Work(s'[..p]) < (left + 1) * room
            && (left + Peak(s'[..p]) < rounds + Peak(a) || left + Peak(s'[..p]) == 0)
  {
    OneBatchDrains(w, tick, p, from, end);
    var a, a' := w.store[..p], AfterBatch(w, tick).store[..p];
    PeakAndWork(a);
    if Peak(a) == 0 {
      left := 0;
    } else if Work(a') + room <= Work(a) {
      assert (rounds + 1) * room == rounds * room + room;
      left := rounds - 1;
    } else {
      left := rounds;
    }
  }

  lemma {:induction false} DrainInRounds(
      w: World, ticks: seq<Tick>, p: nat, from: Time, end: Time, rounds: nat, room: nat)
    requires Sound(w.store) && ValidRun(w, ticks) && SendsSucceed(ticks) && ReadingsIn(ticks, from, end)
    requires Backlog(w.store, p, from)
    requires room > 0 && room == BATCH_SIZE - DueDuds(w.store[..p], end)
    requires Work(w.store[..p]) < (rounds + 1) * room
    requires |ticks| >= rounds + Peak(w.store[..p])
    ensures Drained(AfterRun(w, ticks).store, p)
    decreases ticks
  {
    PeakAndWork(w.store[..p]);
    if ticks != [] {
      var left := OneBatchLess(w, ticks[0], p, from, end, rounds, room);
      BatchKeepsSound(w, ticks[0]);
      assert SendsSucceed(ticks[1..]) && ReadingsIn(ticks[1..], from, end);
      DrainInRounds(AfterBatch(w, ticks[0]), ticks[1..], p, from, end, left, room);
    }
  }

  /** No occurrence of the first p entries is still to come. */
  predicate Drained(s: seq<Transmission>, p: nat) {
    p <= |s| && AllFinite(s[..p]) && Work(s[..p]) == 0
  }

  lemma RoundsFor(work: nat, room: nat) returns (rounds: nat)
    requires room > 0
    ensures rounds == work / room && work < (rounds + 1) * room
  {
    rounds := work / room;
    QuotientRounds(work, room, rounds + 1);
  }

  /**
   Greedy drain bound: with R sends to come in all for the first p entries, M of them at
   most for one entry, and Z < 100 untouched Times(0) entries among them that are due by
   the end, floor(R / (100 - Z)) + M batches finish all that work, whatever is pushed
   meanwhile. Without untouched entries it is floor(R / 100) + M.
   */
  lemma {:induction false} DrainBound(w: World, ticks: seq<Tick>, p: nat, from: Time, end: Time)
    requires Sound(w.store) && ValidRun(w, ticks) && SendsSucceed(ticks) && ReadingsIn(ticks, from, end)
    requires Backlog(w.store, p, from) && DueDuds(w.store[..p], end) < BATCH_SIZE
    requires |ticks| >= Work(w.store[..p]) / (BATCH_SIZE - DueDuds(w.store[..p], end)) + Peak(w.store[..p])
    ensures Drained(AfterRun(w, ticks).store, p)
  {
    var room, work := BATCH_SIZE - DueDuds(w.store[..p], end), Work(w.store[..p]);
    var rounds := RoundsFor(work, room);
    DrainInRounds(w, ticks, p, from, end, rounds, room);
  }

  // ---- Exactly when a backlog drains ----

  /** A blocked entry stays as it is. */
  lemma {:induction false} StarvedStays(w: World, ticks: seq<Tick>, p: nat, from: Time)
    requires Sound(w.store) && ValidRun(w, ticks) && p < |w.store|
    requires DueDuds(w.store[..p], from) >= BATCH_SIZE
    requires forall i :: 0 <= i < |ticks| ==> from <= ticks[i].now
    ensures p < |AfterRun(w, ticks).store| && AfterRun(w, ticks).store[p] == w.store[p]
    decreases ticks
  {
    if ticks != [] {
      DueDudsGrow(w.store[..p], from, ticks[0].now);
      EntryInBatch(w, ticks[0], p);
      BlockStays(w, ticks[0], p, from);
      BatchKeepsSound(w, ticks[0]);
      StarvedStays(AfterBatch(w, ticks[0]), ticks[1..], p, from);
    }
  }

  lemma {:induction false} DueDudsAppend(a: seq<Transmission>, b: seq<Transmission>, now: Time)
    ensures DueDuds(a + b, now) == DueDuds(a, now) + DueDuds(b, now)
  {
    if a == [] {
      assert a + b == b;
    } else {
      assert (a + b)[0] == a[0] && (a + b)[1..] == a[1..] + b;
      DueDudsAppend(a[1..], b, now);
    }
  }

  /** Every succeeding run of at least `n` batches, with readings from `from` to `end`, drains the first p entries. */
  ghost predicate AlwaysDrains(w: World, p: nat, from: Time, end: Time, n: nat) {
    forall ticks :: ValidRun(w, ticks) && SendsSucceed(ticks) && ReadingsIn(ticks, from, end) && |ticks| >= n
      ==> Drained(AfterRun(w, ticks).store, p)
  }

  /** R + M for the first p entries. */
  function Enough(s: seq<Transmission>, p: nat): nat
    requires p <= |s| && AllFinite(s[..p])
  {
    Work(s[..p]) + Peak(s[..p])
  }

  lemma {:induction false} BlockedNeverDrains(w: World, p: nat, from: Time, end: Time, n: nat)
    requires Sound(w.store) && p < |w.store| && AllFinite([w.store[p]]) && RemainingOf(w.store[p]) > 0 && from <= end
    requires DueDuds(w.store[..p], end) >= BATCH_SIZE
    ensures !AlwaysDrains(w, p + 1, from, end, n)
  {
    var ticks := QuietTicks(end, n);
    QuietRunIsValid(w, end, n);
    StarvedStays(w, ticks, p, end);
    var s := AfterRun(w, ticks).store;
    if Drained(s, p + 1) {
      assert s[..p + 1][p] in s[..p + 1];
      NoWorkNoRemaining(s[..p + 1], s[p]);
    }
    assert ReadingsIn(ticks, from, end) && !Drained(s, p + 1);
  }

  lemma {:induction false} UnblockedDrains(w: World, p: nat, from: Time, end: Time)
    requires Sound(w.store) && Backlog(w.store, p, from) && DueDuds(w.store[..p], end) < BATCH_SIZE
    ensures AlwaysDrains(w, p, from, end, Enough(w.store, p))
  {
    var all := w.store[..p];
    QuotientAtMost(Work(all), BATCH_SIZE - DueDuds(all, end));
    forall ticks | ValidRun(w, ticks) && SendsSucceed(ticks) && ReadingsIn(ticks, from, end)
                   && |ticks| >= Enough(w.store, p)
      ensures Drained(AfterRun(w, ticks).store, p)
    {
      DrainBound(w, ticks, p, from, end);
    }
  }

  lemma {:induction false} UnfinishedIsNoDud(s: seq<Transmission>, p: nat, end: Time)
    requires p < |s| && AllFinite([s[p]]) && RemainingOf(s[p]) > 0
    ensures DueDuds(s[..p + 1], end) == DueDuds(s[..p], end)
  {
    assert s[..p + 1] == s[..p] + [s[p]];
    DueDudsAppend(s[..p], [s[p]], end);
    assert s[p] in [s[p]];
  }

  /**
   A backlog whose last entry still has occurrences to send is drained by every
   succeeding run of R + M batches with readings up to `end`, whatever is pushed
   meanwhile, if and only if fewer than 100 untouched Times(0) entries are due by `end`.
   */
  lemma DrainsExactlyWhen(w: World, p: nat, from: Time, end: Time)
    requires Sound(w.store) && Backlog(w.store, p + 1, from) && from <= end
    requires AllFinite([w.store[p]]) && RemainingOf(w.store[p]) > 0
    ensures AlwaysDrains(w, p + 1, from, end, Enough(w.store, p + 1))
            <==> DueDuds(w.store[..p + 1], end) < 100
  {
    UnfinishedIsNoDud(w.store, p, end);
    if DueDuds(w.store[..p + 1], end) < BATCH_SIZE {
      UnblockedDrains(w, p + 1, from, end);
    } else {
      BlockedNeverDrains(w, p, from, end, Enough(w.store, p + 1));
    }
  }

  // ---- What has been sent when the work is finished ----

  lemma {:induction false} NoWorkNoRemaining(s: seq<Transmission>, t: Transmission)
    requires AllFinite(s) && Work(s) == 0 && t in s
    ensures t.schedule.Finite() && RemainingOf(t) == 0
  {
    assert forall u :: u in s[1..] ==> u in s;
    if t != s[0] {
      NoWorkNoRemaining(s[1..], t);
    }
  }

  /** Delivered occurrences really occur, so what is planned is what was sent plus what remains. */
  lemma PlannedIsSentPlusRemaining(t: Transmission, attempts: seq<Attempt>)
    requires Accounted(t, attempts) && t.schedule.Finite()
    ensures Planned(t.schedule) == t.transmissionCount + RemainingOf(t)
  {
    FiniteDeliveries(t, attempts);
    forall c: U32 | c < t.transmissionCount ensures t.schedule.Next(c).Some? {
      assert Delivered(attempts, t.id)[c] == c;
      DeliveredWasAttempted(attempts, t.id, c);
    }
    PlannedSplit(t.schedule, t.transmissionCount);
  }

  /** A finite transmission that is finished has been sent exactly its planned occurrences, once each. */
  lemma {:induction false} FinishedWasFullySent(t: Transmission, attempts: seq<Attempt>)
    requires Accounted(t, attempts) && Consistent(t) && t.schedule.Finite() && t.next.None?
    ensures Planned(t.schedule) == t.transmissionCount
    ensures Delivered(attempts, t.id) == FirstOccurrences(t.transmissionCount)
  {
    PlannedIsSentPlusRemaining(t, attempts);
    FiniteDeliveries(t, attempts);
  }

  /** A run never moves an entry, nor changes its id, schedule or message. */
  lemma {:induction false} RunKeepsEntries(w: World, ticks: seq<Tick>, i: nat)
    requires Sound(w.store) && ValidRun(w, ticks) && i < |w.store|
    ensures i < |AfterRun(w, ticks).store|
    ensures var t, t' := w.store[i], AfterRun(w, ticks).store[i];
            t'.id == t.id && t'.schedule == t.schedule && t'.message == t.message
    decreases ticks
  {
    if ticks != [] {
      EntryInBatch(w, ticks[0], i);
      BatchKeepsSound(w, ticks[0]);
      RunKeepsEntries(AfterBatch(w, ticks[0]), ticks[1..], i);
    }
  }

  /**
   A drained backlog: after floor(R / (100 - Z)) + M batches each of the first p
   transmissions has been sent exactly its planned occurrences 0, 1, ..., Planned - 1,
   in order and once each, whatever is pushed meanwhile.
   */
  lemma {:induction false} DrainSendsEverything(w: World, ticks: seq<Tick>, p: nat, from: Time, end: Time, i: nat)
    requires Inv(w) && ValidRun(w, ticks) && SendsSucceed(ticks) && ReadingsIn(ticks, from, end)
    requires Backlog(w.store, p, from) && DueDuds(w.store[..p], end) < BATCH_SIZE
    requires |ticks| >= Work(w.store[..p]) / (BATCH_SIZE - DueDuds(w.store[..p], end)) + Peak(w.store[..p])
    requires i < p
    ensures var t := w.store[i];
            && t.schedule.Finite() && Planned(t.schedule) < U32_MODULUS
            && Delivered(AfterRun(w, ticks).attempts, t.id) == FirstOccurrences(Planned(t.schedule))
  {
    DrainBound(w, ticks, p, from, end);
    ExactlyOnce(w, ticks);
    RunKeepsEntries(w, ticks, i);
    SentWhenDrained(AfterRun(w, ticks), p, i);
  }

  lemma SentWhenDrained(w: World, p: nat, i: nat)
    requires Inv(w) && Drained(w.store, p) && i < p
    ensures var t := w.store[i];
            && t.schedule.Finite() && Planned(t.schedule) < U32_MODULUS
            && Delivered(w.attempts, t.id) == FirstOccurrences(Planned(t.schedule))
  {
    var t := w.store[i];
    assert w.store[..p][i] == t && t in w.store;
    NoWorkNoRemaining(w.store[..p], t);
    PlannedIsSentPlusRemaining(t, w.attempts);
    FiniteDeliveries(t, w.attempts);
  }
}
