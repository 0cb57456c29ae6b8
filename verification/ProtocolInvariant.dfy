/** What every reachable state of the Postgres protocol satisfies. */
module ProtocolInvariant {
  import opened Model
  import opened Postgres
  import opened Protocol
  import Scheduler
  import InMemory

  // ---- The table ----

  /** The row with the highest count of its id. */
  predicate Top(table: Table, k: Key) {
    k in table && forall j :: j in table && j.id == k.id ==> j.count <= k.count
  }

  predicate NoGaps(table: Table) {
    forall k, c: U32 :: k in table && c < k.count ==> Key(k.id, c) in table
  }

  predicate LockedBelowTop(table: Table) {
    forall j, k :: j in table && k in table && j.id == k.id && j.count < k.count ==> table[j].isLocked
  }

  predicate OneScheduleEach(table: Table) {
    forall j, k :: j in table && k in table && j.id == k.id ==>
      table[j].schedule == table[k].schedule && table[j].message == table[k].message
  }

  predicate RowsConsistent(table: Table) {
    forall k :: k in table ==> Consistent(Stored(k, table[k]))
  }

  /** A row that is finished is never claimed. */
  predicate LockedWasDue(table: Table) {
    forall k :: k in table && table[k].isLocked ==> table[k].next.Some?
  }

  predicate TableInv(table: Table) {
    && NoGaps(table) && LockedBelowTop(table) && OneScheduleEach(table)
    && RowsConsistent(table) && LockedWasDue(table)
  }

  // ---- The workers ----

  /** `t` is, exactly as stored, the locked top row of its id. */
  predicate Claimed(table: Table, t: Transmission) {
    && Top(table, KeyOf(t))
    && table[KeyOf(t)].isLocked
    && Stored(KeyOf(t), table[KeyOf(t)]) == t
    && t.next.Some?
  }

  predicate HoldingsClaimed(table: Table, workers: map<WorkerId, Worker>) {
    forall w, t :: w in workers && t in Holding(workers[w]) ==> Claimed(table, t)
  }

  /** No id is held twice, by one worker or by two. */
  predicate HoldingsDisjoint(workers: map<WorkerId, Worker>) {
    && (forall w :: w in workers ==> InMemory.DistinctIds(Holding(workers[w])))
    && (forall v, w, t, u ::
          v in workers && w in workers && t in Holding(workers[v]) && u in Holding(workers[w]) && t.id == u.id ==> v == w)
  }

  predicate HoldingsDue(workers: map<WorkerId, Worker>) {
    forall w, t :: w in workers && t in Holding(workers[w]) ==> Scheduler.Relevant(t, workers[w].now)
  }

  predicate HoldInv(table: Table, workers: map<WorkerId, Worker>) {
    HoldingsClaimed(table, workers) && HoldingsDisjoint(workers) && HoldingsDue(workers)
  }

  // ---- The calls ----

  /** A call was for a stored, locked row, carried its message, and did not come before it was due. */
  predicate CallJustified(table: Table, call: Call) {
    && call.key in table && table[call.key].isLocked
    && call.message == table[call.key].message
    && table[call.key].schedule.Next(call.key.count).Some?
    && table[call.key].schedule.Next(call.key.count).value <= call.at
  }

  predicate CallsJustified(table: Table, calls: seq<Call>) {
    forall i :: 0 <= i < |calls| ==> CallJustified(table, calls[i])
  }

  predicate AtMostOnce(calls: seq<Call>) {
    forall i, j :: 0 <= i < j < |calls| ==> calls[i].key != calls[j].key
  }

  predicate Called(calls: seq<Call>, k: Key, ok: bool) {
    exists i :: 0 <= i < |calls| && calls[i].key == k && calls[i].ok == ok
  }

  predicate NeverCalled(calls: seq<Call>, k: Key) {
    forall i :: 0 <= i < |calls| ==> calls[i].key != k
  }

  predicate QueuesUncalled(workers: map<WorkerId, Worker>, calls: seq<Call>) {
    forall w, t :: w in workers && t in workers[w].queue ==> NeverCalled(calls, KeyOf(t))
  }

  predicate CurrentCalled(workers: map<WorkerId, Worker>, calls: seq<Call>) {
    forall w :: w in workers && !workers[w].Working? ==> Called(calls, KeyOf(workers[w].current), workers[w].Sent?)
  }

  /** A later occurrence is stored only when the one before was sent successfully. */
  predicate ProgressWasSent(table: Table, calls: seq<Call>) {
    forall k :: k in table && k.count > 0 ==> Called(calls, Key(k.id, k.count - 1), true)
  }

  predicate CallInv(table: Table, workers: map<WorkerId, Worker>, calls: seq<Call>) {
    && CallsJustified(table, calls) && AtMostOnce(calls)
    && QueuesUncalled(workers, calls) && CurrentCalled(workers, calls) && ProgressWasSent(table, calls)
  }

  predicate Inv(s: System) {
    TableInv(s.table) && HoldInv(s.table, s.workers) && CallInv(s.table, s.workers, s.calls)
  }

  lemma InvInitially()
    ensures Inv(INITIAL)
  {
  }

  // ---- Locking ----

  lemma LockKeepsRows(table: Table, keys: set<Key>)
    ensures var table' := Lock(table, keys);
            && (forall k :: k in table' <==> k in table)
            && (forall k :: k in table ==>
                  Stored(k, table'[k]) == Stored(k, table[k]) && (table[k].isLocked ==> table'[k].isLocked))
  {
  }

  lemma LockKeepsTable(table: Table, keys: set<Key>)
    requires TableInv(table)
    requires forall k :: k in keys && k in table ==> table[k].next.Some?
    ensures TableInv(Lock(table, keys))
  {
    LockKeepsRows(table, keys);
    var table' := Lock(table, keys);
    forall k | k in table' ensures table'[k].schedule == table[k].schedule && table'[k].message == table[k].message {
      assert Stored(k, table'[k]) == Stored(k, table[k]);
    }
  }

  lemma LockKeepsClaims(table: Table, keys: set<Key>)
    ensures forall t :: Claimed(table, t) ==> Claimed(Lock(table, keys), t)
  {
    LockKeepsRows(table, keys);
  }

  lemma LockKeepsCalls(table: Table, keys: set<Key>)
    ensures forall call :: CallJustified(table, call) ==> CallJustified(Lock(table, keys), call)
  {
    LockKeepsRows(table, keys);
  }

  /** An unlocked row is the top row of its id. */
  lemma UnlockedIsTop(table: Table, k: Key)
    requires TableInv(table) && k in table && !table[k].isLocked
    ensures Top(table, k)
  {
  }

  lemma TopIsUnique(table: Table, j: Key, k: Key)
    requires Top(table, j) && Top(table, k) && j.id == k.id
    ensures j == k
  {
  }

  lemma UnlockedHaveDistinctIds(table: Table, j: Key, k: Key)
    requires TableInv(table) && j in table && k in table && !table[j].isLocked && !table[k].isLocked && j != k
    ensures j.id != k.id
  {
    UnlockedIsTop(table, j);
    UnlockedIsTop(table, k);
  }

  // ---- Inserting ----

  lemma InsertNewKeepsTable(table: Table, t: Transmission, now: Time)
    requires TableInv(table) && t == NewTransmission(t.id, t.schedule, t.message)
    requires forall k :: k in table ==> k.id != t.id
    ensures TableInv(table[KeyOf(t) := RowOf(t, now)])
  {
    NewIsConsistent(t.id, t.schedule, t.message);
  }

  /**
   Saving meets a primary-key conflict exactly when the 32-bit count wraps: the only
   key that a holder's save could find taken is that of occurrence 0.
   */
  lemma SaveConflict(table: Table, t: Transmission)
    requires TableInv(table) && Claimed(table, t)
    ensures KeyOf(t.Transmitted().value) in table <==> t.transmissionCount == U32_MODULUS - 1
    ensures t.transmissionCount == U32_MODULUS - 1 ==> !t.schedule.Finite()
  {
    var k := KeyOf(t);
    assert Consistent(Stored(k, table[k]));
    if t.transmissionCount == U32_MODULUS - 1 {
      assert Key(k.id, 0) in table;
    }
  }

  lemma InsertNextKeepsTable(table: Table, t: Transmission, now: Time)
    requires TableInv(table) && Claimed(table, t) && KeyOf(t.Transmitted().value) !in table
    ensures var t' := t.Transmitted().value; TableInv(table[KeyOf(t') := RowOf(t', now)])
  {
    SaveConflict(table, t);
    var t' := t.Transmitted().value;
    var table' := table[KeyOf(t') := RowOf(t', now)];
    assert Stored(KeyOf(t), table[KeyOf(t)]) == t;
    TransmittedIsConsistent(t);
    assert t'.transmissionCount == t.transmissionCount + 1;
    forall j, k | j in table' && k in table' && j.id == k.id && j.count < k.count ensures table'[j].isLocked {
      assert j in table;
      if k == KeyOf(t') && j != KeyOf(t) {
        assert j.count < KeyOf(t).count;
      }
    }
    forall k, c: U32 | k in table' && c < k.count ensures Key(k.id, c) in table' {
      if k == KeyOf(t') && c != t.transmissionCount {
        assert Key(t.id, c) in table;
      }
    }
    forall k | k in table' ensures Consistent(Stored(k, table'[k])) {
      if k == KeyOf(t') {
        assert Stored(k, table'[k]) == t';
      } else {
        assert Stored(k, table'[k]) == Stored(k, table[k]);
      }
    }
  }

  /** Inserting a row leaves claims on, and calls for, other ids as they were. */
  lemma InsertFrame(table: Table, k: Key, row: Row)
    requires k !in table
    ensures forall t :: Claimed(table, t) && t.id != k.id ==> Claimed(table[k := row], t)
    ensures forall call :: CallJustified(table, call) ==> CallJustified(table[k := row], call)
  {
  }

  // ---- Workers that let go ----

  lemma LettingGo(table: Table, workers: map<WorkerId, Worker>, w: WorkerId, worker: Worker)
    requires HoldInv(table, workers)
    requires InMemory.DistinctIds(Holding(worker))
    requires forall t :: t in Holding(worker) ==> w in workers && t in Holding(workers[w]) && worker.now == workers[w].now
    ensures HoldInv(table, workers[w := worker])
  {
  }

  /** After a worker lets go of a transmission, nobody holds its id. */
  predicate NobodyHolds(workers: map<WorkerId, Worker>, id: Id) {
    forall w, t :: w in workers && t in Holding(workers[w]) ==> t.id != id
  }

  lemma ResolvedIsFree(table: Table, workers: map<WorkerId, Worker>, w: WorkerId)
    requires HoldInv(table, workers) && w in workers && !workers[w].Working?
    ensures var workers' := workers[w := Working(workers[w].now, workers[w].queue)];
            && HoldInv(table, workers')
            && NobodyHolds(workers', workers[w].current.id)
  {
    var worker := workers[w];
    var h := Holding(worker);
    assert h[0] == worker.current && h[1..] == worker.queue;
    assert worker.current in h;
    forall t | t in worker.queue ensures t in h && t.id != worker.current.id {
      var i :| 0 <= i < |worker.queue| && worker.queue[i] == t;
      assert h[i + 1] == t;
    }
    assert InMemory.DistinctIds(h[1..]);
    LettingGo(table, workers, w, Working(worker.now, worker.queue));
  }
}
