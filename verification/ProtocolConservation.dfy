/**
 Where each transmission of the Postgres protocol is, and exactly how one can get lost:
 every top row is waiting, held by one worker, finished, or stranded.
 */
module ProtocolConservation {
  import opened Model
  import opened Postgres
  import opened Protocol
  import opened ProtocolInvariant
  import opened ProtocolSafety
  import Scheduler
  import InMemory
  import BatchEffect
  import MemoryProgress
  import ProtocolDelivery
  import ProtocolQuery

  function KeysOf(ts: seq<Transmission>): set<Key> {
    set t | t in ts :: KeyOf(t)
  }

  predicate HeldBy(workers: map<WorkerId, Worker>, w: WorkerId, k: Key) {
    w in workers && k in KeysOf(Holding(workers[w]))
  }

  predicate IsHeld(workers: map<WorkerId, Worker>, k: Key) {
    exists w :: w in workers && HeldBy(workers, w, k)
  }

  function Tops(table: Table): set<Key> {
    set k | k in table && Top(table, k)
  }

  function Waiting(s: System): set<Key> {
    set k | k in Tops(s.table) && !s.table[k].isLocked && s.table[k].next.Some?
  }

  function Held(s: System): set<Key> {
    set k | k in Tops(s.table) && IsHeld(s.workers, k)
  }

  function Finished(s: System): set<Key> {
    set k | k in Tops(s.table) && s.table[k].next.None?
  }

  /** Locked, and in no worker's hands: nobody ever sends it (StrandedForever). */
  function Stranded(s: System): set<Key> {
    set k | k in Tops(s.table) && s.table[k].isLocked && !IsHeld(s.workers, k)
  }

  // ---- Conservation of the state ----

  lemma HeldIsTop(s: System, w: WorkerId, k: Key)
    requires Inv(s) && HeldBy(s.workers, w, k)
    ensures k in Tops(s.table) && s.table[k].isLocked && s.table[k].next.Some?
  {
    var t :| t in Holding(s.workers[w]) && KeyOf(t) == k;
    assert Claimed(s.table, t);
  }

  /** No row is held by two workers. */
  lemma HolderIsUnique(workers: map<WorkerId, Worker>, v: WorkerId, w: WorkerId, k: Key)
    requires HoldingsDisjoint(workers) && HeldBy(workers, v, k) && v != w
    ensures !HeldBy(workers, w, k)
  {
    var t :| t in Holding(workers[v]) && KeyOf(t) == k;
    assert forall u :: w in workers && u in Holding(workers[w]) ==> u.id != t.id;
  }

  /**
   Each top row is in exactly one of the four places; whatever a worker holds is a top
   row, and it is held by exactly one worker.
   */
  lemma ExactlyOnePlace(s: System)
    requires Inv(s)
    ensures Tops(s.table) == Waiting(s) + Held(s) + Finished(s) + Stranded(s)
    ensures Waiting(s) !! Held(s) !! Finished(s) !! Stranded(s)
    ensures forall w, k :: HeldBy(s.workers, w, k) ==> k in Held(s)
  {
    forall w, k | HeldBy(s.workers, w, k)
      ensures k in Tops(s.table) && s.table[k].isLocked && s.table[k].next.Some?
    {
      HeldIsTop(s, w, k);
    }
    assert forall k :: k in Held(s) ==> s.table[k].isLocked && s.table[k].next.Some?;
    assert LockedWasDue(s.table);
    forall k | k in Tops(s.table) ensures k in Waiting(s) + Held(s) + Finished(s) + Stranded(s) {
      if s.table[k].isLocked {
        assert s.table[k].next.Some?;
      }
    }
  }

  lemma EveryIdHasATop(table: Table, k: Key)
    requires k in table
    ensures exists j :: j in Tops(table) && j.id == k.id
    decreases U32_MODULUS - k.count
  {
    if Top(table, k) {
      assert k in Tops(table);
    } else {
      var j :| j in table && j.id == k.id && j.count > k.count;
      EveryIdHasATop(table, j);
    }
  }

  // ---- How the places change ----

  /** What is held after a worker keeps some of what it held and lets go of the rest. */
  lemma HeldAfterLettingGo(workers: map<WorkerId, Worker>, w: WorkerId, worker: Worker, gone: set<Key>, k: Key)
    requires HoldingsDisjoint(workers)
    requires KeysOf(Holding(worker)) !! gone
    requires KeysOf(Holding(worker)) + gone == if w in workers then KeysOf(Holding(workers[w])) else {}
    ensures IsHeld(workers[w := worker], k) <==> IsHeld(workers, k) && k !in gone
  {
    var workers' := workers[w := worker];
    if IsHeld(workers', k) {
      var v :| v in workers' && HeldBy(workers', v, k);
      assert HeldBy(workers, v, k);
      if v != w {
        HolderIsUnique(workers, v, w, k);
      }
    }
    if IsHeld(workers, k) && k !in gone {
      var v :| v in workers && HeldBy(workers, v, k);
      assert HeldBy(workers', v, k);
    }
  }

  lemma HeldAfterTakingUp(workers: map<WorkerId, Worker>, w: WorkerId, worker: Worker, k: Key)
    requires w in workers ==> Holding(workers[w]) == []
    ensures IsHeld(workers[w := worker], k) <==> IsHeld(workers, k) || k in KeysOf(Holding(worker))
  {
    var workers' := workers[w := worker];
    if IsHeld(workers, k) {
      var v :| v in workers && HeldBy(workers, v, k);
      assert HeldBy(workers', v, k);
    }
    if k in KeysOf(Holding(worker)) {
      assert HeldBy(workers', w, k);
    }
    if IsHeld(workers', k) {
      var v :| v in workers' && HeldBy(workers', v, k);
      assert v != w ==> HeldBy(workers, v, k);
    }
  }

  lemma HoldingKeys(worker: Worker)
    requires !worker.Working? && InMemory.DistinctIds(Holding(worker))
    ensures KeysOf(worker.queue) !! {KeyOf(worker.current)}
    ensures KeysOf(worker.queue) + {KeyOf(worker.current)} == KeysOf(Holding(worker))
  {
    InMemory.DistinctAppend([worker.current], worker.queue);
    assert worker.current in [worker.current];
    assert forall t :: t in Holding(worker) <==> t == worker.current || t in worker.queue;
  }

  // ---- What each step strands ----

  /** The rows that a step strands. */
  function Lost(s: System, step: Step): set<Key>
    requires Enabled(s, step)
  {
    match step
    case Store(_, _, _) => {}
    case Poll(w, now, rows) => Claims(s.table, now) - KeysOf(PolledQueue(s.table, now, rows))
    case PollFails(_, now, applied) => if applied then Claims(s.table, now) else {}
    case Send(_, _) => {}
    case Save(w, _, outcome) =>
      var t := s.Worker(w).current;
      if outcome == NotApplied || t.transmissionCount == U32_MODULUS - 1 then {KeyOf(t)} else {}
    case Reschedule(w, _) => {KeyOf(s.Worker(w).current)}
    case Crash(w) => KeysOf(Holding(s.Worker(w)))
  }

  lemma TopsAfterLock(table: Table, keys: set<Key>)
    ensures Tops(Lock(table, keys)) == Tops(table)
  {
    assert forall k :: k in Lock(table, keys) <==> k in table;
  }

  lemma ClaimsAreFreeTops(s: System, now: Time, k: Key)
    requires Inv(s) && k in Claims(s.table, now)
    ensures k in Tops(s.table) && !s.table[k].isLocked && !IsHeld(s.workers, k)
  {
    UnlockedIsTop(s.table, k);
    ClaimableIsFree(s.table, s.workers, now, k);
  }

  /** Claiming free rows strands those that are not handed to the ready worker. */
  lemma ClaimingStrands(s: System, claims: set<Key>, w: WorkerId, worker: Worker, s': System)
    requires s'.table == Lock(s.table, claims) && s'.workers == s.workers[w := worker]
    requires w in s.workers ==> Holding(s.workers[w]) == []
    requires forall k :: k in claims ==> k in Tops(s.table) && !s.table[k].isLocked && !IsHeld(s.workers, k)
    requires KeysOf(Holding(worker)) <= claims
    ensures Stranded(s') == Stranded(s) + (claims - KeysOf(Holding(worker)))
  {
    TopsAfterLock(s.table, claims);
    forall k ensures IsHeld(s'.workers, k) <==> IsHeld(s.workers, k) || k in KeysOf(Holding(worker)) {
      HeldAfterTakingUp(s.workers, w, worker, k);
    }
  }

  lemma PollStrands(s: System, w: WorkerId, now: Time, rows: seq<Key>)
    requires Inv(s) && Enabled(s, Poll(w, now, rows))
    ensures Stranded(Apply(s, Poll(w, now, rows))) == Stranded(s) + Lost(s, Poll(w, now, rows))
  {
    var claims, queue := Claims(s.table, now), PolledQueue(s.table, now, rows);
    PolledQueueMembers(s.table, now, rows);
    forall k | k in claims ensures k in Tops(s.table) && !s.table[k].isLocked && !IsHeld(s.workers, k) {
      ClaimsAreFreeTops(s, now, k);
    }
    ClaimingStrands(s, claims, w, Working(now, queue), Apply(s, Poll(w, now, rows)));
  }

  lemma PollFailsStrands(s: System, w: WorkerId, now: Time, applied: bool)
    requires Inv(s) && Enabled(s, PollFails(w, now, applied))
    ensures Stranded(Apply(s, PollFails(w, now, applied))) == Stranded(s) + Lost(s, PollFails(w, now, applied))
  {
    TopsAfterLock(s.table, Claims(s.table, now));
    forall k | k in Claims(s.table, now) ensures k in Tops(s.table) && !IsHeld(s.workers, k) {
      ClaimsAreFreeTops(s, now, k);
    }
  }

  /** Letting go of locked top rows strands them, as long as the table stays the same. */
  lemma LettingGoStrands(s: System, w: WorkerId, worker: Worker, gone: set<Key>, s': System)
    requires Inv(s) && s'.table == s.table && s'.workers == s.workers[w := worker]
    requires KeysOf(Holding(worker)) !! gone
    requires KeysOf(Holding(worker)) + gone == if w in s.workers then KeysOf(Holding(s.workers[w])) else {}
    ensures Stranded(s') == Stranded(s) + gone
  {
    forall k ensures IsHeld(s'.workers, k) <==> IsHeld(s.workers, k) && k !in gone {
      HeldAfterLettingGo(s.workers, w, worker, gone, k);
    }
    forall k | k in gone ensures k in Tops(s.table) && s.table[k].isLocked {
      assert HeldBy(s.workers, w, k);
      HeldIsTop(s, w, k);
    }
  }

  lemma TopsAfterSave(table: Table, t: Transmission, insertedAt: Time)
    requires TableInv(table) && Claimed(table, t) && KeyOf(t.Transmitted().value) !in table
    ensures var t' := t.Transmitted().value;
            Tops(table[KeyOf(t') := RowOf(t', insertedAt)]) == Tops(table) - {KeyOf(t)} + {KeyOf(t')}
  {
    SaveConflict(table, t);
    var t' := t.Transmitted().value;
    var table' := table[KeyOf(t') := RowOf(t', insertedAt)];
    assert KeyOf(t') in table' && KeyOf(t).count < KeyOf(t').count;
    forall k | k in Tops(table) && k != KeyOf(t) ensures Top(table', k) {
      if k.id == t.id {
        TopIsUnique(table, k, KeyOf(t));
      }
    }
    forall k | k in Tops(table') && k != KeyOf(t') ensures Top(table, k) && k != KeyOf(t) {
      assert k in table;
    }
  }

  /** A saved row takes the place of the one before as top row, and is not stranded. */
  lemma SavedRowStrands(s: System, t: Transmission, insertedAt: Time)
    requires TableInv(s.table) && Claimed(s.table, t) && KeyOf(t.Transmitted().value) !in s.table
    ensures var t' := t.Transmitted().value;
            Stranded(s.(table := s.table[KeyOf(t') := RowOf(t', insertedAt)])) == Stranded(s) - {KeyOf(t)}
  {
    TopsAfterSave(s.table, t, insertedAt);
  }

  /** Before the table changes, the transmission that a worker resolves is stranded. */
  lemma ResolvedStrands(s: System, w: WorkerId)
    requires Inv(s) && w in s.workers && !s.workers[w].Working?
    ensures var worker := s.workers[w];
            var resolved := s.(workers := s.workers[w := Working(worker.now, worker.queue)]);
            Stranded(resolved) == Stranded(s) + {KeyOf(worker.current)}
    ensures KeyOf(s.workers[w].current) !in Stranded(s)
  {
    var worker := s.workers[w];
    HoldingKeys(worker);
    LettingGoStrands(s, w, Working(worker.now, worker.queue), {KeyOf(worker.current)},
                     s.(workers := s.workers[w := Working(worker.now, worker.queue)]));
    assert HeldBy(s.workers, w, KeyOf(worker.current));
  }

  lemma SameTableSameStranded(s: System, s': System)
    requires s'.table == s.table && s'.workers == s.workers
    ensures Stranded(s') == Stranded(s)
  {
  }

  /** The step as resolving its transmission and then, if the save commits, adding a row. */
  lemma SaveInTwo(s: System, w: WorkerId, insertedAt: Time, outcome: Outcome)
    requires TableInv(s.table) && Enabled(s, Save(w, insertedAt, outcome))
    requires w in s.workers && Claimed(s.table, s.workers[w].current)
    ensures var worker, s' := s.workers[w], Apply(s, Save(w, insertedAt, outcome));
            var resolved := s.(workers := s.workers[w := Working(worker.now, worker.queue)]);
            Stranded(s') == if outcome == NotApplied || worker.current.transmissionCount == U32_MODULUS - 1
                            then Stranded(resolved) else Stranded(resolved) - {KeyOf(worker.current)}
  {
    var worker, s' := s.workers[w], Apply(s, Save(w, insertedAt, outcome));
    var resolved := s.(workers := s.workers[w := Working(worker.now, worker.queue)]);
    SaveConflict(s.table, worker.current);
    SaveEffect(s, w, insertedAt, outcome);
    SameTableSameStranded(resolved.(table := s'.table), s');
    if outcome != NotApplied && worker.current.transmissionCount != U32_MODULUS - 1 {
      SavedRowStrands(resolved, worker.current, insertedAt);
    } else {
      SameTableSameStranded(resolved, s');
    }
  }

  lemma SaveStrands(s: System, w: WorkerId, insertedAt: Time, outcome: Outcome)
    requires Inv(s) && Enabled(s, Save(w, insertedAt, outcome))
    ensures Stranded(Apply(s, Save(w, insertedAt, outcome))) == Stranded(s) + Lost(s, Save(w, insertedAt, outcome))
  {
    ResolvingKeepsInv(s, w);
    ResolvedStrands(s, w);
    SaveInTwo(s, w, insertedAt, outcome);
  }

  lemma TopsAfterStore(table: Table, t: Transmission, insertedAt: Time)
    requires forall k :: k in table ==> k.id != t.id
    ensures Tops(table[KeyOf(t) := RowOf(t, insertedAt)]) == Tops(table) + {KeyOf(t)}
  {
    var table' := table[KeyOf(t) := RowOf(t, insertedAt)];
    forall k | k in table ensures Top(table', k) <==> Top(table, k) {
      assert k.id != t.id;
    }
  }

  lemma StoreStrands(s: System, t: Transmission, insertedAt: Time, outcome: Outcome)
    requires Enabled(s, Store(t, insertedAt, outcome))
    ensures Stranded(Apply(s, Store(t, insertedAt, outcome))) == Stranded(s)
  {
    TopsAfterStore(s.table, t, insertedAt);
  }

  lemma SendKeepsPlaces(s: System, w: WorkerId, ok: bool)
    requires Enabled(s, Send(w, ok))
    ensures var s' := Apply(s, Send(w, ok));
            s'.table == s.table && s'.workers == s.workers[w := AfterCall(s.workers[w], ok)]
    ensures KeysOf(Holding(AfterCall(s.workers[w], ok))) == KeysOf(Holding(s.workers[w]))
  {
    CallKeepsHolding(s.workers[w], ok);
  }

  lemma SendStrands(s: System, w: WorkerId, ok: bool)
    requires Inv(s) && Enabled(s, Send(w, ok))
    ensures Stranded(Apply(s, Send(w, ok))) == Stranded(s)
  {
    SendKeepsPlaces(s, w, ok);
    LettingGoStrands(s, w, AfterCall(s.workers[w], ok), {}, Apply(s, Send(w, ok)));
  }

  lemma RescheduleStrands(s: System, w: WorkerId, outcome: Outcome)
    requires Inv(s) && Enabled(s, Reschedule(w, outcome))
    ensures Stranded(Apply(s, Reschedule(w, outcome))) == Stranded(s) + {KeyOf(s.workers[w].current)}
  {
    var worker := s.workers[w];
    ResolvingKeepsInv(s, w);
    RescheduleChange(s, w, outcome);
    ResolvedStrands(s, w);
    SameTableSameStranded(
      s.(workers := s.workers[w := Working(worker.now, worker.queue)]), Apply(s, Reschedule(w, outcome)));
  }

  /**
   Conservation: a step strands exactly the rows in Lost, and what is stranded stays
   stranded. Lost is empty except on poll overflow or the scheduler's filter, a poll
   that fails after locking, a failed save, a failed send, or a crash.
   */
  lemma StrandedExactly(s: System, step: Step)
    requires Inv(s) && Enabled(s, step)
    ensures Stranded(Apply(s, step)) == Stranded(s) + Lost(s, step)
  {
    match step
    case Store(t, insertedAt, outcome) => StoreStrands(s, t, insertedAt, outcome);
    case Poll(w, now, rows) => PollStrands(s, w, now, rows);
    case PollFails(w, now, applied) => PollFailsStrands(s, w, now, applied);
    case Send(w, ok) => SendStrands(s, w, ok);
    case Save(w, insertedAt, outcome) => SaveStrands(s, w, insertedAt, outcome);
    case Reschedule(w, outcome) => RescheduleStrands(s, w, outcome);
    case Crash(w) => LettingGoStrands(s, w, READY, KeysOf(Holding(s.Worker(w))), Apply(s, step));
  }

  // ---- Stranded is lost ----

  lemma StrandedIsNotQueued(s: System, k: Key, w: WorkerId)
    requires Inv(s) && k in Stranded(s)
    requires w in s.workers && s.workers[w].Working? && s.workers[w].queue != []
    ensures s.workers[w].queue[0].id != k.id
  {
    var t := s.workers[w].queue[0];
    assert t in Holding(s.workers[w]);
    assert HeldBy(s.workers, w, KeyOf(t));
    HeldIsTop(s, w, KeyOf(t));
    if t.id == k.id {
      TopIsUnique(s.table, KeyOf(t), k);
    }
  }

  lemma StrandedIsNotSent(s: System, k: Key, step: Step)
    requires Inv(s) && Enabled(s, step) && k in Stranded(s)
    ensures ProtocolDelivery.NoMoreCalls(s.calls, Apply(s, step).calls, k.id)
  {
    if step.Send? {
      StrandedIsNotQueued(s, k, step.w);
      ProtocolDelivery.CallBySend(s, step.w, step.ok, k.id);
    } else {
      ProtocolDelivery.CallsOnlyBySend(s, step);
    }
  }

  /** What is stranded stays stranded, and the transmitter is never called for its id again. */
  lemma {:induction false} StrandedForever(s: System, k: Key, steps: seq<Step>)
    requires Inv(s) && ValidRun(s, steps) && k in Stranded(s)
    ensures k in Stranded(Run(s, steps))
    ensures ProtocolDelivery.NoMoreCalls(s.calls, Run(s, steps).calls, k.id)
    decreases steps
  {
    if steps != [] {
      var s' := Apply(s, steps[0]);
      StepKeepsInv(s, steps[0]);
      StrandedExactly(s, steps[0]);
      StrandedIsNotSent(s, k, steps[0]);
      StrandedForever(s', k, steps[1..]);
      ProtocolDelivery.NoMoreCallsTransitive(s.calls, s'.calls, Run(s', steps[1..]).calls, k.id);
    }
  }

  // ---- When nothing is lost ----

  /** A claimed row whose schedule was planned Times(0): the scheduler's filter drops it. */
  predicate Filtered(table: Table, k: Key)
    requires k in table
  {
    IsDud(Stored(k, table[k]))
  }

  lemma QueuedUnlessFiltered(s: System, now: Time, rows: seq<Key>, k: Key)
    requires TableInv(s.table) && IsSelection(rows, Claims(s.table, now), Scheduler.BATCH_SIZE)
    requires k in Claims(s.table, now)
    ensures k in KeysOf(PolledQueue(s.table, now, rows)) <==> k in rows && !Filtered(s.table, k)
  {
    PolledQueueMembers(s.table, now, rows);
    if k in rows {
      SelectedIsQueuedIfRelevant(s.table, now, rows, k);
      MemoryProgress.DueTestsAgree(Stored(k, s.table[k]), now);
    }
  }

  lemma SelectedIsQueuedIfRelevant(table: Table, now: Time, rows: seq<Key>, k: Key)
    requires forall i :: 0 <= i < |rows| ==> rows[i] in table
    requires k in rows
    ensures Stored(k, table[k]) in PolledQueue(table, now, rows) <==> Scheduler.Relevant(Stored(k, table[k]), now)
  {
    var i :| 0 <= i < |rows| && rows[i] == k;
    assert StoredAll(table, rows)[i] == Stored(k, table[k]);
    BatchEffect.RelevantMembers(StoredAll(table, rows), now);
  }

  lemma CutOff(claims: set<Key>, lost: set<Key>, rows: seq<Key>)
    requires lost <= claims && forall k :: k in claims - lost ==> k in rows
    ensures |lost| >= |claims| - |rows|
  {
    RowsBound(rows, claims - lost);
    assert claims == lost + (claims - lost);
    assert lost !! (claims - lost);
  }

  /** A poll loses exactly what the LIMIT cuts off and what the filter drops. */
  lemma PollLosesExactly(s: System, w: WorkerId, now: Time, rows: seq<Key>)
    requires TableInv(s.table) && Enabled(s, Poll(w, now, rows))
    ensures forall k :: k in Lost(s, Poll(w, now, rows))
                        <==> k in Claims(s.table, now) && (k !in rows || Filtered(s.table, k))
    ensures |Lost(s, Poll(w, now, rows))| >= |Claims(s.table, now)| - Scheduler.BATCH_SIZE
  {
    var claims, lost := Claims(s.table, now), Lost(s, Poll(w, now, rows));
    forall k | k in claims ensures k in lost <==> k !in rows || Filtered(s.table, k) {
      QueuedUnlessFiltered(s, now, rows, k);
    }
    CutOff(claims, lost, rows);
  }

  lemma {:induction false} RowsBound(rows: seq<Key>, keys: set<Key>)
    requires forall k :: k in keys ==> k in rows
    ensures |keys| <= |rows|
  {
    if rows == [] {
      assert keys == {};
    } else {
      RowsBound(rows[1..], keys - {rows[0]});
      assert |keys| <= |keys - {rows[0]}| + 1;
    }
  }

  /** A step without overflow, Times(0), failure or crash. */
  predicate Benign(s: System, step: Step)
    requires Enabled(s, step)
  {
    match step
    case Store(_, _, _) => true
    case Poll(_, now, _) =>
      && |Claims(s.table, now)| <= Scheduler.BATCH_SIZE
      && forall k :: k in Claims(s.table, now) ==> !Filtered(s.table, k)
    case PollFails(_, now, applied) => applied ==> Claims(s.table, now) == {}
    case Send(_, _) => true
    case Save(w, _, outcome) =>
      outcome != NotApplied && s.Worker(w).current.transmissionCount != U32_MODULUS - 1
    case Reschedule(_, _) => false
    case Crash(w) => Holding(s.Worker(w)) == []
  }

  /** The keys of a full selection are all the claims. */
  lemma FullSelection(rows: seq<Key>, claimed: set<Key>)
    requires IsSelection(rows, claimed, |claimed|)
    ensures forall k :: k in claimed ==> k in rows
  {
    if exists k :: k in claimed && k !in rows {
      var k :| k in claimed && k !in rows;
      SelectionSize(rows, claimed - {k});
      assert false;
    }
  }

  lemma {:induction false} SelectionSize(rows: seq<Key>, keys: set<Key>)
    requires forall i, j :: 0 <= i < j < |rows| ==> rows[i] != rows[j]
    requires forall i :: 0 <= i < |rows| ==> rows[i] in keys
    ensures |rows| <= |keys|
  {
    if rows != [] {
      SelectionSize(rows[1..], keys - {rows[0]});
    }
  }

  lemma LosesNothingIffBenign(s: System, step: Step)
    requires Inv(s) && Enabled(s, step)
    ensures Lost(s, step) == {} <==> Benign(s, step)
  {
    match step
    case Store(_, _, _) =>
    case Poll(w, now, rows) =>
      var claims := Claims(s.table, now);
      PollLosesExactly(s, w, now, rows);
      if |claims| <= Scheduler.BATCH_SIZE {
        FullSelection(rows, claims);
        forall k | k in claims ensures k in Lost(s, step) <==> Filtered(s.table, k) {
        }
      }
    case PollFails(_, _, _) =>
    case Send(_, _) =>
    case Save(_, _, _) =>
    case Reschedule(_, _) =>
    case Crash(w) =>
      if Holding(s.Worker(w)) != [] {
        assert KeyOf(Holding(s.Worker(w))[0]) in KeysOf(Holding(s.Worker(w)));
      }
  }

  predicate AllBenign(s: System, steps: seq<Step>)
    requires ValidRun(s, steps)
    decreases steps
  {
    steps == [] || (Benign(s, steps[0]) && AllBenign(Apply(s, steps[0]), steps[1..]))
  }

  /** What is stranded grows along a run, and stays the same only if every step is benign. */
  lemma {:induction false} StrandedAlongRun(s: System, steps: seq<Step>)
    requires Inv(s) && ValidRun(s, steps)
    ensures Stranded(s) <= Stranded(Run(s, steps))
    ensures Stranded(s) == {} ==> (Stranded(Run(s, steps)) == {} <==> AllBenign(s, steps))
    decreases steps
  {
    if steps != [] {
      StrandedExactly(s, steps[0]);
      StepKeepsInv(s, steps[0]);
      LosesNothingIffBenign(s, steps[0]);
      StrandedAlongRun(Apply(s, steps[0]), steps[1..]);
    }
  }

  /**
   Nothing is lost exactly in the runs without faults: every stored id is waiting, held
   by a worker or finished at the end of a run if and only if every step was benign.
   */
  lemma {:induction false} NothingLostIffBenign(steps: seq<Step>)
    requires ValidRun(INITIAL, steps)
    ensures var s := Run(INITIAL, steps);
            (forall k :: k in Tops(s.table) ==> k in Waiting(s) + Held(s) + Finished(s)) <==> AllBenign(INITIAL, steps)
  {
    var s := Run(INITIAL, steps);
    RunKeepsInv(INITIAL, steps);
    StrandedAlongRun(INITIAL, steps);
    ExactlyOnePlace(s);
    if forall k :: k in Tops(s.table) ==> k in Waiting(s) + Held(s) + Finished(s) {
      assert Stranded(s) == {};
    }
  }

  /**
   As long as no save went back in time, a benign poll hands its worker every waiting
   transmission that is due before its clock reading.
   */
  lemma {:induction false} PollTakesEveryDue(steps: seq<Step>, w: WorkerId, now: Time, rows: seq<Key>)
    requires ValidRun(INITIAL, steps) && ProtocolQuery.SavesForward(INITIAL, steps, false)
    requires Enabled(Run(INITIAL, steps), Poll(w, now, rows)) && Benign(Run(INITIAL, steps), Poll(w, now, rows))
    ensures var s := Run(INITIAL, steps);
            forall k :: k in Waiting(s) && s.table[k].next.value < now ==>
              Stored(k, s.table[k]) in Apply(s, Poll(w, now, rows)).workers[w].queue
  {
    var s := Run(INITIAL, steps);
    RunKeepsInv(INITIAL, steps);
    ProtocolQuery.QueryEquivalence(steps);
    FullSelection(rows, Claims(s.table, now));
    PolledQueueMembers(s.table, now, rows);
    forall k | k in Waiting(s) && s.table[k].next.value < now
      ensures Stored(k, s.table[k]) in PolledQueue(s.table, now, rows)
    {
      assert k in Claims(s.table, now);
      QueuedUnlessFiltered(s, now, rows, k);
    }
  }
}
