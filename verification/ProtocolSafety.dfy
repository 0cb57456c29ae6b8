/** Every step of the Postgres protocol keeps its invariant. */
module ProtocolSafety {
  import opened Model
  import opened Postgres
  import opened Protocol
  import opened ProtocolInvariant
  import Scheduler
  import InMemory
  import BatchEffect

  // ---- Poll ----

  /** What a poll hands to its worker, after the scheduler's filter. */
  function PolledQueue(table: Table, now: Time, rows: seq<Key>): seq<Transmission>
    requires forall i :: 0 <= i < |rows| ==> rows[i] in table
  {
    Scheduler.RelevantOf(StoredAll(table, rows), now)
  }

  lemma PolledQueueMembers(table: Table, now: Time, rows: seq<Key>)
    requires TableInv(table) && IsSelection(rows, Claims(table, now), Scheduler.BATCH_SIZE)
    ensures forall t :: t in PolledQueue(table, now, rows) ==>
              && KeyOf(t) in rows && KeyOf(t) in Claims(table, now)
              && t == Stored(KeyOf(t), table[KeyOf(t)]) && Scheduler.Relevant(t, now)
    ensures InMemory.DistinctIds(PolledQueue(table, now, rows))
  {
    BatchEffect.RelevantMembers(StoredAll(table, rows), now);
    SelectedHaveDistinctIds(table, now, rows);
    forall t | t in PolledQueue(table, now, rows)
      ensures KeyOf(t) in rows && KeyOf(t) in Claims(table, now) && t == Stored(KeyOf(t), table[KeyOf(t)])
    {
      StoredIsSelected(table, rows, t);
    }
  }

  lemma StoredIsSelected(table: Table, rows: seq<Key>, t: Transmission)
    requires forall i :: 0 <= i < |rows| ==> rows[i] in table
    requires t in StoredAll(table, rows)
    ensures KeyOf(t) in rows && t == Stored(KeyOf(t), table[KeyOf(t)])
  {
    var i :| 0 <= i < |rows| && StoredAll(table, rows)[i] == t;
    assert rows[i] == KeyOf(t);
  }

  /** Claimed rows are unlocked, so no two of them have the same id. */
  lemma SelectedHaveDistinctIds(table: Table, now: Time, rows: seq<Key>)
    requires TableInv(table) && IsSelection(rows, Claims(table, now), Scheduler.BATCH_SIZE)
    ensures InMemory.DistinctIds(StoredAll(table, rows))
  {
    forall i, j | 0 <= i < j < |rows| ensures rows[i].id != rows[j].id {
      UnlockedHaveDistinctIds(table, rows[i], rows[j]);
    }
  }

  lemma PolledIsClaimed(table: Table, now: Time, rows: seq<Key>, t: Transmission)
    requires TableInv(table) && IsSelection(rows, Claims(table, now), Scheduler.BATCH_SIZE)
    requires t in PolledQueue(table, now, rows)
    ensures Claimed(Lock(table, Claims(table, now)), t)
  {
    PolledQueueMembers(table, now, rows);
    UnlockedIsTop(table, KeyOf(t));
  }

  /** A claimable row is unlocked, so nobody holds its id. */
  lemma ClaimableIsFree(table: Table, workers: map<WorkerId, Worker>, now: Time, k: Key)
    requires TableInv(table) && HoldInv(table, workers) && k in Claims(table, now)
    ensures NobodyHolds(workers, k.id)
  {
    UnlockedIsTop(table, k);
    forall w, t | w in workers && t in Holding(workers[w]) ensures t.id != k.id {
      assert Claimed(table, t);
      if t.id == k.id {
        TopIsUnique(table, KeyOf(t), k);
      }
    }
  }

  lemma HoldAfterLock(table: Table, workers: map<WorkerId, Worker>, keys: set<Key>)
    requires HoldInv(table, workers)
    ensures HoldInv(Lock(table, keys), workers)
  {
    LockKeepsClaims(table, keys);
  }

  lemma CallsAfterLock(table: Table, workers: map<WorkerId, Worker>, calls: seq<Call>, keys: set<Key>)
    requires CallInv(table, workers, calls)
    ensures CallInv(Lock(table, keys), workers, calls)
  {
    LockKeepsCalls(table, keys);
    LockKeepsRows(table, keys);
  }

  /** A ready worker taking up a queue of ids that nobody holds. */
  lemma TakingUp(table: Table, workers: map<WorkerId, Worker>, w: WorkerId, now: Time, queue: seq<Transmission>)
    requires HoldInv(table, workers)
    requires w in workers ==> workers[w].Working? && workers[w].queue == []
    requires InMemory.DistinctIds(queue)
    requires forall t :: t in queue ==> Claimed(table, t) && Scheduler.Relevant(t, now) && NobodyHolds(workers, t.id)
    ensures HoldInv(table, workers[w := Working(now, queue)])
  {
  }

  lemma PollKeepsHold(table: Table, workers: map<WorkerId, Worker>, w: WorkerId, now: Time, rows: seq<Key>)
    requires TableInv(table) && HoldInv(table, workers)
    requires IsSelection(rows, Claims(table, now), Scheduler.BATCH_SIZE)
    requires w in workers ==> workers[w].Working? && workers[w].queue == []
    ensures HoldInv(Lock(table, Claims(table, now)), workers[w := Working(now, PolledQueue(table, now, rows))])
  {
    var queue := PolledQueue(table, now, rows);
    HoldAfterLock(table, workers, Claims(table, now));
    PolledQueueMembers(table, now, rows);
    forall t | t in queue ensures Claimed(Lock(table, Claims(table, now)), t) && NobodyHolds(workers, t.id) {
      PolledIsClaimed(table, now, rows, t);
      ClaimableIsFree(table, workers, now, KeyOf(t));
    }
    TakingUp(Lock(table, Claims(table, now)), workers, w, now, queue);
  }

  lemma PollKeepsCalls(
      table: Table, workers: map<WorkerId, Worker>, calls: seq<Call>, w: WorkerId, now: Time, rows: seq<Key>)
    requires TableInv(table) && CallInv(table, workers, calls)
    requires IsSelection(rows, Claims(table, now), Scheduler.BATCH_SIZE)
    ensures CallInv(Lock(table, Claims(table, now)), workers[w := Working(now, PolledQueue(table, now, rows))], calls)
  {
    PolledQueueMembers(table, now, rows);
    CallsAfterLock(table, workers, calls, Claims(table, now));
    forall t | t in PolledQueue(table, now, rows) ensures NeverCalled(calls, KeyOf(t)) {
      forall i | 0 <= i < |calls| ensures calls[i].key != KeyOf(t) {
        assert CallJustified(table, calls[i]);
      }
    }
  }

  lemma PollKeepsInv(s: System, w: WorkerId, now: Time, rows: seq<Key>)
    requires Inv(s) && Enabled(s, Poll(w, now, rows))
    ensures Inv(Apply(s, Poll(w, now, rows)))
  {
    LockKeepsTable(s.table, Claims(s.table, now));
    PollKeepsHold(s.table, s.workers, w, now, rows);
    PollKeepsCalls(s.table, s.workers, s.calls, w, now, rows);
  }

  // ---- Send ----

  /** A transmission queued anywhere but at the head of w's queue has another id than that head. */
  lemma QueuedElsewhere(workers: map<WorkerId, Worker>, w: WorkerId, v: WorkerId, u: Transmission)
    requires HoldingsDisjoint(workers)
    requires w in workers && workers[w].Working? && workers[w].queue != []
    requires v in workers && u in if v == w then workers[w].queue[1..] else workers[v].queue
    ensures u in workers[v].queue && u.id != workers[w].queue[0].id
  {
    var queue := workers[w].queue;
    assert queue[0] in Holding(workers[w]);
    if v == w {
      var i :| 0 <= i < |queue[1..]| && queue[1..][i] == u;
      assert queue[i + 1] == u && queue[0].id != queue[i + 1].id;
    } else {
      assert u in Holding(workers[v]);
    }
  }

  lemma CalledStays(calls: seq<Call>, call: Call)
    ensures forall k, ok :: Called(calls, k, ok) ==> Called(calls + [call], k, ok)
    ensures Called(calls + [call], call.key, call.ok)
  {
    var calls' := calls + [call];
    forall k, ok | Called(calls, k, ok) ensures Called(calls', k, ok) {
      var i :| 0 <= i < |calls| && calls[i].key == k && calls[i].ok == ok;
      assert calls'[i] == calls[i];
    }
    assert calls'[|calls|] == call;
  }

  /** The worker after calling the transmitter for the head of its queue. */
  function AfterCall(worker: Worker, ok: bool): Worker
    requires worker.Working? && worker.queue != []
  {
    if ok then Sent(worker.now, worker.queue[0], worker.queue[1..])
    else Refused(worker.now, worker.queue[0], worker.queue[1..])
  }

  lemma SendKeepsQueues(workers: map<WorkerId, Worker>, calls: seq<Call>, w: WorkerId, ok: bool, call: Call)
    requires w in workers && workers[w].Working? && workers[w].queue != []
    requires HoldingsDisjoint(workers) && QueuesUncalled(workers, calls)
    requires call.key == KeyOf(workers[w].queue[0])
    ensures QueuesUncalled(workers[w := AfterCall(workers[w], ok)], calls + [call])
  {
    var workers' := workers[w := AfterCall(workers[w], ok)];
    forall v, u | v in workers' && u in workers'[v].queue ensures NeverCalled(calls + [call], KeyOf(u)) {
      QueuedElsewhere(workers, w, v, u);
      assert NeverCalled(calls, KeyOf(u));
    }
  }

  lemma SendKeepsCalls(table: Table, workers: map<WorkerId, Worker>, calls: seq<Call>, w: WorkerId, ok: bool, call: Call)
    requires w in workers && workers[w].Working? && workers[w].queue != []
    requires HoldingsDisjoint(workers) && CallInv(table, workers, calls)
    requires call.key == KeyOf(workers[w].queue[0]) && call.ok == ok && CallJustified(table, call)
    ensures CallInv(table, workers[w := AfterCall(workers[w], ok)], calls + [call])
  {
    assert workers[w].queue[0] in workers[w].queue;
    assert NeverCalled(calls, call.key);
    CalledStays(calls, call);
    SendKeepsQueues(workers, calls, w, ok, call);
  }

  lemma SendIsJustified(table: Table, workers: map<WorkerId, Worker>, w: WorkerId, ok: bool)
    requires HoldingsClaimed(table, workers) && HoldingsDue(workers)
    requires w in workers && workers[w].Working? && workers[w].queue != []
    ensures var t := workers[w].queue[0];
            CallJustified(table, Call(KeyOf(t), t.message, workers[w].now, ok))
  {
    var t := workers[w].queue[0];
    assert t in Holding(workers[w]);
    assert Claimed(table, t) && Scheduler.Relevant(t, workers[w].now);
  }

  lemma CallKeepsHolding(worker: Worker, ok: bool)
    requires worker.Working? && worker.queue != []
    ensures Holding(AfterCall(worker, ok)) == Holding(worker)
    ensures AfterCall(worker, ok).now == worker.now
  {
  }

  lemma SendKeepsHold(table: Table, workers: map<WorkerId, Worker>, w: WorkerId, ok: bool)
    requires HoldInv(table, workers)
    requires w in workers && workers[w].Working? && workers[w].queue != []
    ensures HoldInv(table, workers[w := AfterCall(workers[w], ok)])
  {
    CallKeepsHolding(workers[w], ok);
    LettingGo(table, workers, w, AfterCall(workers[w], ok));
  }

  lemma SendKeepsInv(s: System, w: WorkerId, ok: bool)
    requires Inv(s) && Enabled(s, Send(w, ok))
    ensures Inv(Apply(s, Send(w, ok)))
  {
    var worker := s.workers[w];
    var t := worker.queue[0];
    SendIsJustified(s.table, s.workers, w, ok);
    SendKeepsHold(s.table, s.workers, w, ok);
    SendKeepsCalls(s.table, s.workers, s.calls, w, ok, Call(KeyOf(t), t.message, worker.now, ok));
  }

  // ---- Save, Reschedule, Crash ----

  /** Letting go of some transmissions makes no difference to the calls. */
  lemma CallsAfterLettingGo(table: Table, workers: map<WorkerId, Worker>, calls: seq<Call>, w: WorkerId, now: Time, queue: seq<Transmission>)
    requires CallInv(table, workers, calls)
    requires forall t :: t in queue ==> w in workers && t in workers[w].queue
    ensures CallInv(table, workers[w := Working(now, queue)], calls)
  {
  }

  lemma InsertNextKeepsHold(table: Table, workers: map<WorkerId, Worker>, t: Transmission, insertedAt: Time)
    requires HoldInv(table, workers) && KeyOf(t) !in table && NobodyHolds(workers, t.id)
    ensures HoldInv(table[KeyOf(t) := RowOf(t, insertedAt)], workers)
  {
    InsertFrame(table, KeyOf(t), RowOf(t, insertedAt));
  }

  lemma InsertNextKeepsCalls(
      table: Table, workers: map<WorkerId, Worker>, calls: seq<Call>, t: Transmission, insertedAt: Time)
    requires CallInv(table, workers, calls) && KeyOf(t) !in table
    requires t.transmissionCount > 0 ==> Called(calls, Key(t.id, t.transmissionCount - 1), true)
    ensures CallInv(table[KeyOf(t) := RowOf(t, insertedAt)], workers, calls)
  {
    InsertFrame(table, KeyOf(t), RowOf(t, insertedAt));
  }

  lemma SavedRowKeepsInv(table: Table, workers: map<WorkerId, Worker>, calls: seq<Call>, t: Transmission, insertedAt: Time)
    requires TableInv(table) && HoldInv(table, workers) && CallInv(table, workers, calls)
    requires Claimed(table, t) && NobodyHolds(workers, t.id) && Called(calls, KeyOf(t), true)
    requires KeyOf(t.Transmitted().value) !in table
    ensures var t' := t.Transmitted().value;
            var table' := table[KeyOf(t') := RowOf(t', insertedAt)];
            TableInv(table') && HoldInv(table', workers) && CallInv(table', workers, calls)
  {
    var t' := t.Transmitted().value;
    SaveConflict(table, t);
    InsertNextKeepsTable(table, t, insertedAt);
    InsertNextKeepsHold(table, workers, t', insertedAt);
    InsertNextKeepsCalls(table, workers, calls, t', insertedAt);
  }

  /** A worker that resolves its current transmission, before the table changes. */
  lemma ResolvingKeepsInv(s: System, w: WorkerId)
    requires Inv(s) && w in s.workers && !s.workers[w].Working?
    ensures var workers' := s.workers[w := Working(s.workers[w].now, s.workers[w].queue)];
            && HoldInv(s.table, workers') && CallInv(s.table, workers', s.calls)
            && NobodyHolds(workers', s.workers[w].current.id)
    ensures Claimed(s.table, s.workers[w].current)
    ensures Called(s.calls, KeyOf(s.workers[w].current), s.workers[w].Sent?)
  {
    assert s.workers[w].current in Holding(s.workers[w]);
    ResolvedIsFree(s.table, s.workers, w);
    CallsAfterLettingGo(s.table, s.workers, s.calls, w, s.workers[w].now, s.workers[w].queue);
  }

  /** The table that a save leaves: one more row, or the same. */
  lemma SaveEffect(s: System, w: WorkerId, insertedAt: Time, outcome: Outcome)
    requires Enabled(s, Save(w, insertedAt, outcome)) && s.workers[w].current.next.Some?
    ensures var worker, s' := s.workers[w], Apply(s, Save(w, insertedAt, outcome));
            var t' := worker.current.Transmitted().value;
            && s'.workers == s.workers[w := Working(worker.now, worker.queue)] && s'.calls == s.calls
            && s'.table == if outcome == NotApplied || KeyOf(t') in s.table then s.table
                           else s.table[KeyOf(t') := RowOf(t', insertedAt)]
  {
  }

  lemma SaveKeepsInv(s: System, w: WorkerId, insertedAt: Time, outcome: Outcome)
    requires Inv(s) && Enabled(s, Save(w, insertedAt, outcome))
    ensures Inv(Apply(s, Save(w, insertedAt, outcome)))
  {
    var worker := s.workers[w];
    ResolvingKeepsInv(s, w);
    SaveEffect(s, w, insertedAt, outcome);
    if outcome != NotApplied && KeyOf(worker.current.Transmitted().value) !in s.table {
      SavedRowKeepsInv(s.table, s.workers[w := Working(worker.now, worker.queue)], s.calls, worker.current, insertedAt);
    }
  }

  /** While its worker holds the top row of an id, that id has no unlocked row. */
  lemma HeldHasNothingToReschedule(table: Table, t: Transmission)
    requires TableInv(table) && Claimed(table, t)
    ensures RescheduleTargets(table, t.id) == {}
    ensures Lock(table, RescheduleTargets(table, t.id)) == table
  {
    forall k | k in table && k.id == t.id ensures table[k].isLocked {
      if k.count < t.transmissionCount {
        assert KeyOf(t) in table;
      } else {
        assert k == KeyOf(t);
      }
    }
  }

  lemma RescheduleKeepsInv(s: System, w: WorkerId, outcome: Outcome)
    requires Inv(s) && Enabled(s, Reschedule(w, outcome))
    ensures Inv(Apply(s, Reschedule(w, outcome)))
  {
    ResolvingKeepsInv(s, w);
    HeldHasNothingToReschedule(s.table, s.workers[w].current);
  }

  // ---- All steps ----

  lemma StoreKeepsInv(s: System, t: Transmission, insertedAt: Time, outcome: Outcome)
    requires Inv(s) && Enabled(s, Store(t, insertedAt, outcome))
    ensures Inv(Apply(s, Store(t, insertedAt, outcome)))
  {
    if outcome != NotApplied {
      InsertNewKeepsTable(s.table, t, insertedAt);
      forall w, u | w in s.workers && u in Holding(s.workers[w]) ensures u.id != t.id {
        assert Claimed(s.table, u);
      }
      InsertNextKeepsHold(s.table, s.workers, t, insertedAt);
      InsertNextKeepsCalls(s.table, s.workers, s.calls, t, insertedAt);
    }
  }

  lemma StepKeepsInv(s: System, step: Step)
    requires Inv(s) && Enabled(s, step)
    ensures Inv(Apply(s, step))
  {
    match step
    case Store(t, insertedAt, outcome) => StoreKeepsInv(s, t, insertedAt, outcome);
    case Poll(w, now, rows) => PollKeepsInv(s, w, now, rows);
    case PollFails(w, now, applied) =>
      LockKeepsTable(s.table, Claims(s.table, now));
      HoldAfterLock(s.table, s.workers, Claims(s.table, now));
      CallsAfterLock(s.table, s.workers, s.calls, Claims(s.table, now));
    case Send(w, ok) => SendKeepsInv(s, w, ok);
    case Save(w, insertedAt, outcome) => SaveKeepsInv(s, w, insertedAt, outcome);
    case Reschedule(w, outcome) => RescheduleKeepsInv(s, w, outcome);
    case Crash(w) =>
      LettingGo(s.table, s.workers, w, READY);
      CallsAfterLettingGo(s.table, s.workers, s.calls, w, 0, []);
  }

  lemma {:induction false} RunKeepsInv(s: System, steps: seq<Step>)
    requires Inv(s) && ValidRun(s, steps)
    ensures Inv(Run(s, steps))
    decreases steps
  {
    if steps != [] {
      StepKeepsInv(s, steps[0]);
      RunKeepsInv(Apply(s, steps[0]), steps[1..]);
    }
  }

  // ---- What a step does to the table ----

  datatype TableChange = Same | LockClaims(now: Time) | Append(t: Transmission, insertedAt: Time)

  function Changed(table: Table, change: TableChange): Table {
    match change
    case Same => table
    case LockClaims(now) => Lock(table, Claims(table, now))
    case Append(t, insertedAt) => table[KeyOf(t) := RowOf(t, insertedAt)]
  }

  function ChangeOf(s: System, step: Step): TableChange
    requires Enabled(s, step)
  {
    match step
    case Store(t, insertedAt, outcome) => if outcome == NotApplied then Same else Append(t, insertedAt)
    case Poll(_, now, _) => LockClaims(now)
    case PollFails(_, now, applied) => if applied then LockClaims(now) else Same
    case Send(_, _) => Same
    case Save(w, insertedAt, outcome) =>
      var t := s.Worker(w).current;
      if outcome == NotApplied || t.transmissionCount == U32_MODULUS - 1 || t.next.None? then Same
      else Append(t.Transmitted().value, insertedAt)
    case Reschedule(_, _) => Same
    case Crash(_) => Same
  }

  /** A row that is appended has a new id or the next count of its id. */
  predicate NextRow(table: Table, t: Transmission) {
    && KeyOf(t) !in table
    && forall k :: k in table && k.id == t.id ==> k.count < t.transmissionCount
  }

  lemma SaveChange(s: System, w: WorkerId, insertedAt: Time, outcome: Outcome)
    requires Enabled(s, Save(w, insertedAt, outcome))
    requires TableInv(s.table) && w in s.workers && Claimed(s.table, s.workers[w].current)
    ensures var change := ChangeOf(s, Save(w, insertedAt, outcome));
            && Apply(s, Save(w, insertedAt, outcome)).table == Changed(s.table, change)
            && (change.Append? ==> NextRow(s.table, change.t))
  {
    SaveConflict(s.table, s.workers[w].current);
    SaveEffect(s, w, insertedAt, outcome);
  }

  lemma RescheduleChange(s: System, w: WorkerId, outcome: Outcome)
    requires Enabled(s, Reschedule(w, outcome))
    requires TableInv(s.table) && w in s.workers && Claimed(s.table, s.workers[w].current)
    ensures Apply(s, Reschedule(w, outcome)).table == s.table
  {
    HeldHasNothingToReschedule(s.table, s.workers[w].current);
  }

  lemma ClaimedStepChange(s: System, step: Step)
    requires TableInv(s.table) && Enabled(s, step)
    requires step.Save? || step.Reschedule? ==> Claimed(s.table, s.Worker(step.w).current)
    ensures Apply(s, step).table == Changed(s.table, ChangeOf(s, step))
    ensures ChangeOf(s, step).Append? ==> NextRow(s.table, ChangeOf(s, step).t)
  {
    match step
    case Store(_, _, _) =>
    case Poll(_, _, _) =>
    case PollFails(_, _, _) =>
    case Send(_, _) =>
    case Save(w, insertedAt, outcome) => SaveChange(s, w, insertedAt, outcome);
    case Reschedule(w, outcome) => RescheduleChange(s, w, outcome);
    case Crash(_) =>
  }

  /** A step leaves the table alone, locks what a poll claims, or appends one row. */
  lemma StepChange(s: System, step: Step)
    requires Inv(s) && Enabled(s, step)
    ensures Apply(s, step).table == Changed(s.table, ChangeOf(s, step))
    ensures ChangeOf(s, step).Append? ==> NextRow(s.table, ChangeOf(s, step).t)
    ensures step.Save? ==> Claimed(s.table, s.Worker(step.w).current)
  {
    if step.Save? || step.Reschedule? {
      ResolvingKeepsInv(s, step.w);
    }
    ClaimedStepChange(s, step);
  }
}
