/**
 When the in-memory scheduler sends what is due: how long an entry waits behind
 those stored before it, and exactly when it waits forever.
 */
module MemoryProgress {
  import opened Model
  import opened InMemory
  import opened Scheduler
  import opened BatchEffect
  import opened MemorySafety

  // ---- Runs and what they send ----

  /** The calls of the transmitter made in a run. */
  function AttemptsIn(w: World, ticks: seq<Tick>): seq<Attempt>
    decreases ticks
  {
    if ticks == [] then []
    else AttemptsOf(Queue(w.store, ticks[0].now), ticks[0].now, ticks[0].failing)
         + AttemptsIn(AfterBatch(w, ticks[0]), ticks[1..])
  }

  lemma BatchAttempts(w: World, tick: Tick)
    requires Sound(w.store) && ValidTick(w, tick)
    ensures AfterBatch(w, tick).attempts
            == w.attempts + AttemptsOf(Queue(w.store, tick.now), tick.now, tick.failing)
  {
    BatchIsOnePass(w, tick);
  }

  lemma {:induction false} AttemptsInRun(w: World, ticks: seq<Tick>)
    requires Sound(w.store) && ValidRun(w, ticks)
    ensures AfterRun(w, ticks).attempts == w.attempts + AttemptsIn(w, ticks)
    decreases ticks
  {
    if ticks != [] {
      BatchAttempts(w, ticks[0]);
      BatchKeepsSound(w, ticks[0]);
      AttemptsInRun(AfterBatch(w, ticks[0]), ticks[1..]);
    }
  }

  /** Every clock reading of the run lies within these bounds; readings may go back. */
  predicate ReadingsIn(ticks: seq<Tick>, from: Time, end: Time) {
    forall i :: 0 <= i < |ticks| ==> from <= ticks[i].now <= end
  }

  predicate SendsSucceed(ticks: seq<Tick>) {
    forall i :: 0 <= i < |ticks| ==> ticks[i].failing == {}
  }

  lemma {:induction false} NoFailures(attempts: seq<Attempt>)
    requires forall a :: a in attempts ==> a.ok
    ensures Failures(attempts) == 0
  {
    if attempts != [] {
      NoFailures(attempts[1..]);
    }
  }

  lemma {:induction false} SucceedingRun(w: World, ticks: seq<Tick>)
    requires SendsSucceed(ticks)
    ensures forall a :: a in AttemptsIn(w, ticks) ==> a.ok
    decreases ticks
  {
    if ticks != [] {
      AttemptMembers(Queue(w.store, ticks[0].now), ticks[0].now, ticks[0].failing);
      SucceedingRun(AfterBatch(w, ticks[0]), ticks[1..]);
    }
  }

  // ---- One entry in one batch ----

  lemma {:induction false} RelevantAppend(a: seq<Transmission>, b: seq<Transmission>, now: Time)
    ensures RelevantOf(a + b, now) == RelevantOf(a, now) + RelevantOf(b, now)
  {
    if a == [] {
      assert a + b == b;
    } else {
      var head := if Relevant(a[0], now) then [a[0]] else [];
      assert (a + b)[0] == a[0] && (a + b)[1..] == a[1..] + b;
      RelevantAppend(a[1..], b, now);
      assert RelevantOf(a, now) == head + RelevantOf(a[1..], now);
    }
  }

  lemma {:induction false} AttemptsAppend(a: seq<Transmission>, b: seq<Transmission>, now: Time, failing: set<Id>)
    ensures AttemptsOf(a + b, now, failing) == AttemptsOf(a, now, failing) + AttemptsOf(b, now, failing)
  {
    if a == [] {
      assert a + b == b;
    } else {
      assert (a + b)[0] == a[0] && (a + b)[1..] == a[1..] + b;
      AttemptsAppend(a[1..], b, now, failing);
    }
  }

  lemma {:induction false} QueuedIsAttempted(queue: seq<Transmission>, now: Time, failing: set<Id>, t: Transmission)
    requires t in queue
    ensures AttemptOf(t, now, t.id !in failing) in AttemptsOf(queue, now, failing)
  {
    if t != queue[0] {
      QueuedIsAttempted(queue[1..], now, failing, t);
    }
  }

  /** For a consistent entry other than an untouched Times(0), the two due tests agree. */
  lemma DueTestsAgree(t: Transmission, now: Time)
    requires Consistent(t)
    ensures Relevant(t, now) && Due(t, now) <==> Due(t, now) && !IsDud(t)
    ensures !IsDud(t) ==> (Relevant(t, now) <==> Due(t, now))
  {
  }

  /** Which entries a batch attempts, and what becomes of entry p. */
  lemma EntryInBatch(w: World, tick: Tick, p: nat)
    requires Sound(w.store) && ValidTick(w, tick) && p < |w.store|
    ensures var e, w' := w.store[p], AfterBatch(w, tick);
            && (e in Queue(w.store, tick.now)
                <==> Due(e, tick.now) && !IsDud(e) && |DueOf(w.store[..p], tick.now)| < BATCH_SIZE)
            && p < |w'.store|
            && w'.store[p] == if e in Queue(w.store, tick.now) && e.id !in tick.failing then Advance(e) else e
  {
    BatchIsOnePass(w, tick);
    PollSelects(w.store, tick.now, BATCH_SIZE, p);
    RelevantMembers(Poll(w.store, tick.now, BATCH_SIZE), tick.now);
    assert w.store[p] in w.store;
    DueTestsAgree(w.store[p], tick.now);
  }

  // ---- Counting what stands ahead ----

  predicate AllFinite(s: seq<Transmission>) {
    forall t :: t in s ==> t.schedule.Finite() && Consistent(t)
  }

  function RemainingOf(t: Transmission): nat
    requires t.schedule.Finite()
  {
    Remaining(t.schedule, t.transmissionCount)
  }

  /** The total number of sends still to come. */
  function Work(s: seq<Transmission>): nat
    requires AllFinite(s)
  {
    if s == [] then 0
    else
      assert s[0] in s;
      assert forall t :: t in s[1..] ==> t in s;
      RemainingOf(s[0]) + Work(s[1..])
  }

  /** The untouched Times(0) entries that are due: every poll takes them, and none is ever sent. */
  function DueDuds(s: seq<Transmission>, now: Time): nat {
    if s == [] then 0 else (if IsDud(s[0]) && Due(s[0], now) then 1 else 0) + DueDuds(s[1..], now)
  }

  lemma OutcomeProgress(t: Transmission, now: Time, failing: set<Id>)
    requires t.schedule.Finite() && Consistent(t)
    ensures var t' := Outcome(t, now, failing);
            && Consistent(t') && t'.schedule == t.schedule && t'.id == t.id
            && (IsDud(t') <==> IsDud(t)) && (IsDud(t) ==> t' == t)
            && RemainingOf(t) == RemainingOf(t') + (if Relevant(t, now) && t.id !in failing then 1 else 0)
            && t.transmissionCount + RemainingOf(t) == t'.transmissionCount + RemainingOf(t')
  {
    if Relevant(t, now) && t.id !in failing {
      TransmittedIsConsistent(t);
    }
  }

  lemma {:induction false} QueueFailuresCons(t: Transmission, rest: seq<Transmission>, now: Time, failing: set<Id>)
    ensures Failures(AttemptsOf(RelevantOf([t] + rest, now), now, failing))
            == (if Relevant(t, now) && t.id in failing then 1 else 0)
               + Failures(AttemptsOf(RelevantOf(rest, now), now, failing))
  {
    var q := RelevantOf(rest, now);
    assert ([t] + rest)[1..] == rest;
    if Relevant(t, now) {
      assert RelevantOf([t] + rest, now) == [t] + q;
      assert ([t] + q)[1..] == q;
      assert AttemptsOf([t] + q, now, failing)[1..] == AttemptsOf(q, now, failing);
    } else {
      assert [] + q == q;
    }
  }

  /**
   Where a batch's capacity goes: every polled entry is an untouched Times(0) that is
   due by `end`, a failed send, or one send less to come.
   */
  lemma {:induction false} PassProgress(s: seq<Transmission>, now: Time, failing: set<Id>, cap: nat, end: Time)
    requires AllFinite(s) && now <= end
    ensures var s' := Served(s, now, failing, cap);
            && AllFinite(s') && DueDuds(s', end) == DueDuds(s, end) && Work(s') <= Work(s)
            && |Poll(s, now, cap)| + Work(s')
               <= DueDuds(s, end) + Failures(AttemptsOf(RelevantOf(Poll(s, now, cap), now), now, failing)) + Work(s)
  {
    if s != [] && cap > 0 {
      assert s[0] in s;
      assert forall t :: t in s[1..] ==> t in s;
      var cap' := if Due(s[0], now) then cap - 1 else cap;
      PassProgress(s[1..], now, failing, cap', end);
      OutcomeProgress(s[0], now, failing);
      DueTestsAgree(s[0], now);
      var s' := Served(s, now, failing, cap);
      assert s'[1..] == Served(s[1..], now, failing, cap');
      if Due(s[0], now) {
        QueueFailuresCons(s[0], Poll(s[1..], now, cap'), now, failing);
      }
    }
  }

  // ---- Bounded waiting ----

  lemma QueueAppend(a: seq<Transmission>, b: seq<Transmission>, now: Time) returns (behind: seq<Transmission>)
    ensures Queue(a + b, now) == Queue(a, now) + behind
  {
    PollAppend(a, b, now, BATCH_SIZE);
    var pa := Poll(a, now, BATCH_SIZE);
    RelevantAppend(pa, Poll(b, now, BATCH_SIZE - |pa|), now);
    behind := RelevantOf(Poll(b, now, BATCH_SIZE - |pa|), now);
  }

  lemma {:induction false} FailuresPrefix(qa: seq<Transmission>, qb: seq<Transmission>, now: Time, failing: set<Id>)
    ensures Failures(AttemptsOf(qa, now, failing)) <= Failures(AttemptsOf(qa + qb, now, failing))
  {
    AttemptsAppend(qa, qb, now, failing);
    FailuresAppend(AttemptsOf(qa, now, failing), AttemptsOf(qb, now, failing));
  }

  lemma {:induction false} FailuresAhead(a: seq<Transmission>, b: seq<Transmission>, now: Time, failing: set<Id>)
    ensures Failures(AttemptsOf(Queue(a, now), now, failing)) <= Failures(AttemptsOf(Queue(a + b, now), now, failing))
  {
    var behind := QueueAppend(a, b, now);
    FailuresPrefix(Queue(a, now), behind, now, failing);
  }

  /** What a batch does to a prefix does not depend on the rest. */
  lemma PrefixAfterBatch(w: World, tick: Tick, p: nat)
    requires Sound(w.store) && ValidTick(w, tick) && p <= |w.store|
    ensures p <= |AfterBatch(w, tick).store|
    ensures AfterBatch(w, tick).store[..p] == Served(w.store[..p], tick.now, tick.failing, BATCH_SIZE)
  {
    assert w.store == w.store[..p] + w.store[p..];
    BatchIsOnePass(w, tick);
    ServedAppend(w.store[..p], w.store[p..], tick.now, tick.failing, BATCH_SIZE);
  }

  /** The entries ahead of p after a batch, and the failures among them. */
  lemma {:induction false} AheadAfterBatch(w: World, tick: Tick, p: nat, end: Time)
    requires Sound(w.store) && ValidTick(w, tick) && p <= |w.store| && AllFinite(w.store[..p]) && tick.now <= end
    ensures var ahead, w' := w.store[..p], AfterBatch(w, tick);
            && p <= |w'.store| && AllFinite(w'.store[..p])
            && DueDuds(w'.store[..p], end) == DueDuds(ahead, end)
            && |Poll(ahead, tick.now, BATCH_SIZE)| + Work(w'.store[..p])
               <= DueDuds(ahead, end) + Work(ahead)
                  + Failures(AttemptsOf(Queue(w.store, tick.now), tick.now, tick.failing))
  {
    assert w.store == w.store[..p] + w.store[p..];
    PrefixAfterBatch(w, tick, p);
    PassProgress(w.store[..p], tick.now, tick.failing, BATCH_SIZE, end);
    FailuresAhead(w.store[..p], w.store[p..], tick.now, tick.failing);
  }

  /** An entry that is due and not attempted has a full batch ahead of it, and stays due. */
  lemma PassedOver(w: World, tick: Tick, p: nat)
    requires Sound(w.store) && ValidTick(w, tick) && p < |w.store|
    requires Due(w.store[p], tick.now) && !IsDud(w.store[p])
    requires AttemptOf(w.store[p], tick.now, w.store[p].id !in tick.failing)
             !in AttemptsOf(Queue(w.store, tick.now), tick.now, tick.failing)
    ensures |Poll(w.store[..p], tick.now, BATCH_SIZE)| == BATCH_SIZE
    ensures p < |AfterBatch(w, tick).store| && AfterBatch(w, tick).store[p] == w.store[p]
  {
    EntryInBatch(w, tick, p);
    if w.store[p] in Queue(w.store, tick.now) {
      QueuedIsAttempted(Queue(w.store, tick.now), tick.now, tick.failing, w.store[p]);
    }
    PollIsDuePrefix(w.store[..p], tick.now, BATCH_SIZE);
  }

  /** Entry p stands behind finite schedules and has an occurrence to send. */
  predicate Waits(s: seq<Transmission>, p: nat) {
    p < |s| && AllFinite(s[..p]) && s[p].next.Some? && !IsDud(s[p])
  }

  predicate NeverAttempted(t: Transmission, attempts: seq<Attempt>) {
    forall a :: a in attempts ==> !(a.id == t.id && a.count == t.transmissionCount)
  }

  lemma {:induction false} OneBatchPassesOver(w: World, ticks: seq<Tick>, p: nat, end: Time)
    requires Sound(w.store) && ticks != [] && ValidTick(w, ticks[0])
    requires Waits(w.store, p) && w.store[p].next.value <= ticks[0].now <= end
    requires NeverAttempted(w.store[p], AttemptsIn(w, ticks))
    ensures var w' := AfterBatch(w, ticks[0]);
            && Sound(w'.store) && Waits(w'.store, p) && w'.store[p] == w.store[p]
            && DueDuds(w'.store[..p], end) == DueDuds(w.store[..p], end)
            && NeverAttempted(w.store[p], AttemptsIn(w', ticks[1..]))
            && BATCH_SIZE - DueDuds(w.store[..p], end) + Work(w'.store[..p]) + Failures(AttemptsIn(w', ticks[1..]))
               <= Work(w.store[..p]) + Failures(AttemptsIn(w, ticks))
  {
    var tick, w' := ticks[0], AfterBatch(w, ticks[0]);
    var now := AttemptsOf(Queue(w.store, tick.now), tick.now, tick.failing);
    assert AttemptsIn(w, ticks) == now + AttemptsIn(w', ticks[1..]);
    PassedOver(w, tick, p);
    AheadAfterBatch(w, tick, p, end);
    BatchKeepsSound(w, tick);
    FailuresAppend(now, AttemptsIn(w', ticks[1..]));
  }

  lemma OneMoreBatch(n: nat, later: nat, room: int, budget: int)
    requires n == later + 1 && later * room <= budget - room
    ensures n * room <= budget
  {
  }

  lemma {:induction false} WaitingBudget(w: World, ticks: seq<Tick>, p: nat, end: Time, room: int, budget: int)
    requires Sound(w.store) && ValidRun(w, ticks)
    requires Waits(w.store, p) && ReadingsIn(ticks, w.store[p].next.value, end)
    requires NeverAttempted(w.store[p], AttemptsIn(w, ticks))
    requires room == BATCH_SIZE - DueDuds(w.store[..p], end)
    requires Work(w.store[..p]) + Failures(AttemptsIn(w, ticks)) <= budget
    ensures |ticks| * room <= budget
    decreases ticks
  {
    if ticks != [] {
      var later := ticks[1..];
      OneBatchPassesOver(w, ticks, p, end);
      assert ReadingsIn(later, w.store[p].next.value, end);
      WaitingBudget(AfterBatch(w, ticks[0]), later, p, end, room, budget - room);
      OneMoreBatch(|ticks|, |later|, room, budget);
    }
  }

  /**
   Bounded waiting: however many new transmissions are pushed meanwhile, every batch
   that passes over a due entry uses up its capacity, less the untouched Times(0)
   entries that are due by the end, on the work ahead of that entry or on failed sends.
   */
  lemma {:induction false} WaitingBound(w: World, ticks: seq<Tick>, p: nat, end: Time)
    requires Sound(w.store) && ValidRun(w, ticks)
    requires Waits(w.store, p) && ReadingsIn(ticks, w.store[p].next.value, end)
    requires NeverAttempted(w.store[p], AttemptsIn(w, ticks))
    ensures |ticks| * (BATCH_SIZE - DueDuds(w.store[..p], end))
            <= Work(w.store[..p]) + Failures(AttemptsIn(w, ticks))
  {
    WaitingBudget(w, ticks, p, end, BATCH_SIZE - DueDuds(w.store[..p], end),
                  Work(w.store[..p]) + Failures(AttemptsIn(w, ticks)));
  }

  lemma QuotientRounds(work: nat, room: nat, n: nat)
    requires room > 0 && n > work / room
    ensures n * room > work
  {
    var q := work / room;
    assert work < room * q + room;
    assert room * (q + 1) == room * q + room;
    ProductGrows(room, q + 1, n);
  }

  /** The occurrence that `t` waits for is sent successfully in the run. */
  predicate SentIn(w: World, ticks: seq<Tick>, t: Transmission) {
    exists a :: a in AttemptsIn(w, ticks) && a.id == t.id && a.count == t.transmissionCount && a.ok
  }

  /**
   With sends succeeding, a due entry is sent within floor(R / (100 - Z)) + 1 batches,
   where R is the work ahead of it and Z < 100 the number of untouched Times(0) entries
   ahead of it that are due by the end. Without any it is floor(R / 100) + 1.
   */
  lemma {:induction false} WaitsAtMost(w: World, ticks: seq<Tick>, p: nat, end: Time)
    requires Sound(w.store) && ValidRun(w, ticks) && SendsSucceed(ticks)
    requires Waits(w.store, p) && ReadingsIn(ticks, w.store[p].next.value, end)
    requires DueDuds(w.store[..p], end) < BATCH_SIZE
    requires |ticks| > Work(w.store[..p]) / (BATCH_SIZE - DueDuds(w.store[..p], end))
    ensures SentIn(w, ticks, w.store[p])
  {
    SucceedingRun(w, ticks);
    if NeverAttempted(w.store[p], AttemptsIn(w, ticks)) {
      NoFailures(AttemptsIn(w, ticks));
      QuotientRounds(Work(w.store[..p]), BATCH_SIZE - DueDuds(w.store[..p], end), |ticks|);
      WaitingBound(w, ticks, p, end);
      assert false;
    }
  }

  // ---- Starvation ----

  lemma {:induction false} DueDudsGrow(s: seq<Transmission>, now: Time, later: Time)
    requires now <= later
    ensures DueDuds(s, now) <= DueDuds(s, later) <= |DueOf(s, later)|
  {
    if s != [] {
      DueDudsGrow(s[1..], now, later);
    }
  }

  lemma {:induction false} DueDudsStay(s: seq<Transmission>, now: Time, failing: set<Id>, cap: nat, from: Time)
    ensures DueDuds(s, from) <= DueDuds(Served(s, now, failing, cap), from)
  {
    if s != [] && cap > 0 {
      var cap' := if Due(s[0], now) then cap - 1 else cap;
      DueDudsStay(s[1..], now, failing, cap', from);
      assert Served(s, now, failing, cap)[1..] == Served(s[1..], now, failing, cap');
    }
  }

  /** With a batch of due Times(0) entries ahead of p, nothing from p on is attempted. */
  lemma {:induction false} BlockedQueue(s: seq<Transmission>, now: Time, failing: set<Id>, p: nat)
    requires DistinctIds(s) && p <= |s| && DueDuds(s[..p], now) >= BATCH_SIZE
    ensures forall a :: a in AttemptsOf(Queue(s, now), now, failing) ==>
              exists i :: 0 <= i < p && s[i].id == a.id
  {
    var a, b := s[..p], s[p..];
    assert s == a + b;
    BlockedPoll(a, b, now);
    PolledAreDueEntries(a, now, BATCH_SIZE);
    RelevantMembers(Poll(a, now, BATCH_SIZE), now);
    AttemptMembers(Queue(s, now), now, failing);
    forall x | x in AttemptsOf(Queue(s, now), now, failing) ensures exists i :: 0 <= i < p && s[i].id == x.id {
      var t :| t in Queue(s, now) && x == AttemptOf(t, now, t.id !in failing);
      var i :| 0 <= i < |a| && a[i] == t;
      assert s[i].id == x.id;
    }
  }

  lemma {:induction false} BlockedPoll(a: seq<Transmission>, b: seq<Transmission>, now: Time)
    requires DueDuds(a, now) >= BATCH_SIZE
    ensures Poll(a + b, now, BATCH_SIZE) == Poll(a, now, BATCH_SIZE)
  {
    DueDudsGrow(a, now, now);
    PollIsDuePrefix(a, now, BATCH_SIZE);
    PollAppend(a, b, now, BATCH_SIZE);
  }

  lemma {:induction false} BlockStays(w: World, tick: Tick, p: nat, from: Time)
    requires Sound(w.store) && ValidTick(w, tick) && p <= |w.store|
    requires DueDuds(w.store[..p], from) >= BATCH_SIZE
    ensures var w' := AfterBatch(w, tick);
            && p <= |w'.store|
            && (forall i :: 0 <= i < p ==> w'.store[i].id == w.store[i].id)
            && DueDuds(w'.store[..p], from) >= BATCH_SIZE
  {
    var a := w.store[..p];
    DueDudsStay(a, tick.now, tick.failing, BATCH_SIZE, from);
    PrefixAfterBatch(w, tick, p);
    ServedFrame(a, tick.now, tick.failing, BATCH_SIZE);
    forall i | 0 <= i < p ensures AfterBatch(w, tick).store[i].id == w.store[i].id {
      assert AfterBatch(w, tick).store[i] == AfterBatch(w, tick).store[..p][i];
      assert w.store[i] == a[i];
    }
  }

  /**
   Starvation: once a whole batch of untouched Times(0) entries is due ahead of
   position p, no entry from p on is ever attempted again, however long the run.
   */
  lemma {:induction false} StarvedForever(w: World, ticks: seq<Tick>, p: nat, from: Time)
    requires Sound(w.store) && ValidRun(w, ticks) && p <= |w.store|
    requires DueDuds(w.store[..p], from) >= BATCH_SIZE
    requires forall i :: 0 <= i < |ticks| ==> from <= ticks[i].now
    ensures forall a :: a in AttemptsIn(w, ticks) ==> exists i :: 0 <= i < p && w.store[i].id == a.id
    decreases ticks
  {
    if ticks != [] {
      var w' := AfterBatch(w, ticks[0]);
      DueDudsGrow(w.store[..p], from, ticks[0].now);
      BlockedQueue(w.store, ticks[0].now, ticks[0].failing, p);
      BlockStays(w, ticks[0], p, from);
      BatchKeepsSound(w, ticks[0]);
      StarvedForever(w', ticks[1..], p, from);
      forall a | a in AttemptsIn(w', ticks[1..]) ensures exists i :: 0 <= i < p && w.store[i].id == a.id {
        var i :| 0 <= i < p && w'.store[i].id == a.id;
        assert w.store[i].id == a.id;
      }
    }
  }

  /** A run of n batches at one clock reading, without failures or pushes. */
  function QuietTicks(now: Time, n: nat): (ticks: seq<Tick>)
    ensures |ticks| == n && SendsSucceed(ticks) && ReadingsIn(ticks, now, now)
  {
    seq(n, _ => Tick(now, {}, []))
  }

  lemma {:induction false} QuietRunIsValid(w: World, now: Time, n: nat)
    requires Sound(w.store)
    ensures ValidRun(w, QuietTicks(now, n))
    decreases n
  {
    if n > 0 {
      var ticks := QuietTicks(now, n);
      assert w.store + Flatten([]) == w.store;
      BatchKeepsSound(w, ticks[0]);
      QuietRunIsValid(AfterBatch(w, ticks[0]), now, n - 1);
      assert ticks[1..] == QuietTicks(now, n - 1);
    }
  }

  lemma {:induction false} StarvedIsNotSent(w: World, ticks: seq<Tick>, p: nat, from: Time)
    requires Sound(w.store) && ValidRun(w, ticks) && p < |w.store|
    requires DueDuds(w.store[..p], from) >= BATCH_SIZE
    requires forall i :: 0 <= i < |ticks| ==> from <= ticks[i].now
    ensures forall a :: a in AttemptsIn(w, ticks) ==> a.id != w.store[p].id
  {
    StarvedForever(w, ticks, p, from);
  }

  // ---- Exactly when a due entry is sent ----

  /** Every succeeding run of more than `n` batches, with readings from `from` to `end`, sends the entry. */
  ghost predicate AlwaysSent(w: World, t: Transmission, from: Time, end: Time, n: nat) {
    forall ticks :: ValidRun(w, ticks) && SendsSucceed(ticks) && ReadingsIn(ticks, from, end) && |ticks| > n
      ==> SentIn(w, ticks, t)
  }

  /**
   Bounded waiting holds exactly while fewer than a batch of untouched Times(0) entries
   fall due ahead: for an entry that is due behind finite schedules, every succeeding
   run of more than R batches with clock readings up to `end` sends it, whatever is
   pushed meanwhile, if and only if fewer than 100 of those entries are due by `end`.
   */
  lemma {:induction false} WaitsExactlyWhen(w: World, p: nat, end: Time)
    requires Sound(w.store) && Waits(w.store, p) && w.store[p].next.value <= end
    ensures AlwaysSent(w, w.store[p], w.store[p].next.value, end, Work(w.store[..p]))
            <==> DueDuds(w.store[..p], end) < 100
  {
    var e, from, work := w.store[p], w.store[p].next.value, Work(w.store[..p]);
    if DueDuds(w.store[..p], end) < BATCH_SIZE {
      forall ticks | ValidRun(w, ticks) && SendsSucceed(ticks) && ReadingsIn(ticks, from, end) && |ticks| > work
        ensures SentIn(w, ticks, e)
      {
        QuotientAtMost(work, BATCH_SIZE - DueDuds(w.store[..p], end));
        WaitsAtMost(w, ticks, p, end);
      }
    } else {
      var ticks := QuietTicks(end, work + 1);
      QuietRunIsValid(w, end, work + 1);
      StarvedIsNotSent(w, ticks, p, end);
      assert ReadingsIn(ticks, from, end) && !SentIn(w, ticks, e);
    }
  }

  lemma QuotientAtMost(work: nat, room: nat)
    requires room > 0
    ensures work / room <= work
  {
    ProductGrows(work / room, 1, room);
    assert (work / room) * room <= work;
  }

  /** The validator does not look at the planned number of times, so it accepts Times(0). */
  lemma DudsAreAccepted(now: Time, schedule: Schedule, n: U32, clockCycleInterval: nat, id: Id, message: Message)
    requires !schedule.Delayed?
    ensures ValidateSchedule(now, schedule, clockCycleInterval)
            == ValidateSchedule(now, schedule.(iterate := Times(n)), clockCycleInterval)
    ensures IsDud(NewTransmission(id, schedule.(iterate := Times(n)), message))
            <==> n == 0 && schedule.FirstDue().Some?
  {
    NewIsConsistent(id, schedule.(iterate := Times(n)), message);
  }
}
