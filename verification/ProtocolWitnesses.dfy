/**
 Runs of the Postgres protocol from the empty table that show its ways of losing a
 transmission: a failed send, a poll that overflows, and a database clock that goes back.
 */
module ProtocolWitnesses {
  import opened Model
  import opened Postgres
  import opened Protocol
  import opened ProtocolInvariant
  import opened ProtocolSafety
  import opened ProtocolDelivery
  import opened ProtocolConservation
  import opened ProtocolQuery
  import Scheduler

  lemma {:induction false} OneMoreStep(s: System, steps: seq<Step>, step: Step)
    requires ValidRun(s, steps) && Enabled(Run(s, steps), step)
    ensures ValidRun(s, steps + [step])
    ensures Run(s, steps + [step]) == Apply(Run(s, steps), step)
    decreases steps
  {
    var all := steps + [step];
    if steps == [] {
      assert all[1..] == [];
    } else {
      assert all[0] == steps[0] && all[1..] == steps[1..] + [step];
      OneMoreStep(Apply(s, steps[0]), steps[1..], step);
    }
  }

  // ---- One transmission, polled by one worker ----

  /** A new transmission whose first occurrence is due before `now`. */
  predicate DueAtFirst(t: Transmission, now: Time) {
    && t == NewTransmission(t.id, t.schedule, t.message)
    && t.schedule.Next(0).Some? && t.schedule.Next(0).value < now
  }

  function StoreAndPoll(t: Transmission, storedAt: Time, now: Time): seq<Step> {
    [Store(t, storedAt, Done)] + [Poll(0, now, [KeyOf(t)])]
  }

  lemma StoreThenPoll(t: Transmission, storedAt: Time, now: Time)
    requires DueAtFirst(t, now)
    ensures ValidRun(INITIAL, StoreAndPoll(t, storedAt, now))
    ensures var s := Run(INITIAL, StoreAndPoll(t, storedAt, now));
            && s.table == map[KeyOf(t) := RowOf(t, storedAt).(isLocked := true)]
            && s.workers == map[0 := Working(now, [t])] && s.calls == []
  {
    var store, k := Store(t, storedAt, Done), KeyOf(t);
    assert [] + [store] == [store];
    OneMoreStep(INITIAL, [], store);
    var s := Apply(INITIAL, store);
    assert s.table == map[k := RowOf(t, storedAt)];
    NewIsConsistent(t.id, t.schedule, t.message);
    assert Claims(s.table, now) == {k} by {
      assert IsLatestEntry(s.table, k.id, storedAt);
    }
    assert StoredAll(s.table, [k]) == [t];
    assert Scheduler.RelevantOf([t], now) == [t];
    OneMoreStep(INITIAL, [store], Poll(0, now, [k]));
  }

  /**
   One failed send ends a transmission: whatever its schedule, store it, let its first
   occurrence fail once, and no continuation ever calls the transmitter for it again.
   */
  lemma OneFailedSendIsTheEnd(t: Transmission, storedAt: Time, now: Time)
    requires DueAtFirst(t, now)
    ensures var steps := StoreAndPoll(t, storedAt, now) + [Send(0, false)];
            && ValidRun(INITIAL, steps)
            && Run(INITIAL, steps).calls == [Call(KeyOf(t), t.message, now, false)]
            && forall later :: ValidRun(Run(INITIAL, steps), later) ==>
                 NoMoreCalls(Run(INITIAL, steps).calls, Run(Run(INITIAL, steps), later).calls, t.id)
  {
    var steps := StoreAndPoll(t, storedAt, now) + [Send(0, false)];
    StoreThenPoll(t, storedAt, now);
    OneMoreStep(INITIAL, StoreAndPoll(t, storedAt, now), Send(0, false));
    var s := Run(INITIAL, steps);
    RunKeepsInv(INITIAL, steps);
    assert s.calls[0].key == KeyOf(t);
    forall later | ValidRun(s, later) ensures NoMoreCalls(s.calls, Run(s, later).calls, t.id) {
      FailedSendIsFinal(s, KeyOf(t), later);
    }
  }

  /**
   A database clock that goes back between two occurrences loses the second: it is
   stored unlocked and has its due time, and no continuation ever sends it.
   */
  lemma BackwardClockLosesNext(t: Transmission, storedAt: Time, now: Time, savedAt: Time)
    requires DueAtFirst(t, now) && t.schedule.Next(1).Some? && savedAt < storedAt
    ensures var steps := StoreAndPoll(t, storedAt, now) + [Send(0, true)] + [Save(0, savedAt, Done)];
            var k := Key(t.id, 1);
            && ValidRun(INITIAL, steps)
            && Invisible(Run(INITIAL, steps).table, k)
            && Run(INITIAL, steps).table[k].next == t.schedule.Next(1)
            && forall later :: ValidRun(Run(INITIAL, steps), later) ==>
                 NoMoreCalls(Run(INITIAL, steps).calls, Run(Run(INITIAL, steps), later).calls, t.id)
  {
    var polled := StoreAndPoll(t, storedAt, now);
    var sent := polled + [Send(0, true)];
    var steps := sent + [Save(0, savedAt, Done)];
    StoreThenPoll(t, storedAt, now);
    OneMoreStep(INITIAL, polled, Send(0, true));
    OneMoreStep(INITIAL, sent, Save(0, savedAt, Done));
    RunKeepsInv(INITIAL, sent);
    RunKeepsInv(INITIAL, steps);
    BackwardSaveIsInvisible(Run(INITIAL, sent), 0, savedAt, Done);
    var s := Run(INITIAL, steps);
    forall later | ValidRun(s, later) ensures NoMoreCalls(s.calls, Run(s, later).calls, t.id) {
      InvisibleForever(s, Key(t.id, 1), later);
    }
  }

  // ---- More due transmissions than a batch ----

  function Prompt(id: Id, message: Message): Transmission {
    NewTransmission(id, Delayed(0), message)
  }

  function StoreMany(n: nat, message: Message): seq<Step> {
    if n == 0 then [] else StoreMany(n - 1, message) + [Store(Prompt(n - 1, message), 0, Done)]
  }

  function FirstKeys(n: nat): seq<Key> {
    seq(n, i requires 0 <= i < n => Key(i, 0))
  }

  lemma {:induction false} StoreManyStores(n: nat, message: Message)
    ensures ValidRun(INITIAL, StoreMany(n, message))
    ensures var s := Run(INITIAL, StoreMany(n, message));
            && s.workers == map[]
            && (forall k :: k in s.table <==> k.id < n && k.count == 0)
            && forall k :: k in s.table ==> s.table[k] == RowOf(Prompt(k.id, message), 0)
  {
    if n > 0 {
      StoreManyStores(n - 1, message);
      OneMoreStep(INITIAL, StoreMany(n - 1, message), Store(Prompt(n - 1, message), 0, Done));
    }
  }

  lemma {:induction false} AsManyKeys(rows: seq<Key>)
    requires forall i, j :: 0 <= i < j < |rows| ==> rows[i] != rows[j]
    ensures |set k | k in rows| == |rows|
  {
    if rows != [] {
      AsManyKeys(rows[1..]);
      assert (set k | k in rows) == (set k | k in rows[1..]) + {rows[0]};
      assert rows[0] !in rows[1..];
    }
  }

  lemma {:induction false} AllAreClaimed(n: nat, message: Message)
    ensures ValidRun(INITIAL, StoreMany(n, message))
    ensures var s := Run(INITIAL, StoreMany(n, message));
            && Claims(s.table, 1) == (set k | k in FirstKeys(n)) && |Claims(s.table, 1)| == n
            && Stranded(s) == {}
            && forall k :: k in s.table ==> !Filtered(s.table, k)
  {
    StoreManyStores(n, message);
    AsManyKeys(FirstKeys(n));
    var table := Run(INITIAL, StoreMany(n, message)).table;
    forall i | 0 <= i < n ensures Key(i, 0) in Claims(table, 1) {
      assert IsLatestEntry(table, i, table[Key(i, 0)].insertedAt);
    }
    forall k | k in table ensures k in FirstKeys(n) {
      assert FirstKeys(n)[k.id] == k;
    }
  }

  lemma AllButReturned(claims: set<Key>, lost: set<Key>, rows: seq<Key>)
    requires forall i, j :: 0 <= i < j < |rows| ==> rows[i] != rows[j]
    requires forall k :: k in rows ==> k in claims
    requires forall k :: k in lost <==> k in claims && k !in rows
    ensures |lost| == |claims| - |rows|
  {
    AsManyKeys(rows);
    assert lost == claims - (set k | k in rows);
    assert (set k | k in rows) <= claims;
  }

  /** When nothing is stranded and no claim is filtered out, a poll strands what it does not return. */
  lemma StrandsAllButReturned(s: System, now: Time, rows: seq<Key>)
    requires Inv(s) && Enabled(s, Poll(0, now, rows)) && Stranded(s) == {}
    requires forall k :: k in Claims(s.table, now) ==> !Filtered(s.table, k)
    ensures |Stranded(Apply(s, Poll(0, now, rows)))| == |Claims(s.table, now)| - |rows|
  {
    LosesAllButReturned(s, now, rows);
    StrandedExactly(s, Poll(0, now, rows));
  }

  lemma LosesAllButReturned(s: System, now: Time, rows: seq<Key>)
    requires TableInv(s.table) && Enabled(s, Poll(0, now, rows))
    requires forall k :: k in Claims(s.table, now) ==> !Filtered(s.table, k)
    ensures |Lost(s, Poll(0, now, rows))| == |Claims(s.table, now)| - |rows|
  {
    PollLosesExactly(s, 0, now, rows);
    AllButReturned(Claims(s.table, now), Lost(s, Poll(0, now, rows)), rows);
  }

  /**
   Overflow: of n due transmissions a single poll strands all but a batch, whichever
   rows it returns, and they stay stranded in every continuation.
   */
  lemma {:induction false} OverflowStrandsTheRest(n: nat, message: Message, rows: seq<Key>)
    requires ValidRun(INITIAL, StoreMany(n, message))
    requires Enabled(Run(INITIAL, StoreMany(n, message)), Poll(0, 1, rows))
    ensures var s := Apply(Run(INITIAL, StoreMany(n, message)), Poll(0, 1, rows));
            && |Stranded(s)| == (if n <= 100 then 0 else n - 100)
            && forall k, later :: k in Stranded(s) && ValidRun(s, later) ==>
                 k in Stranded(Run(s, later)) && NoMoreCalls(s.calls, Run(s, later).calls, k.id)
  {
    var before := Run(INITIAL, StoreMany(n, message));
    AllAreClaimed(n, message);
    RunKeepsInv(INITIAL, StoreMany(n, message));
    StrandsAllButReturned(before, 1, rows);
    StepKeepsInv(before, Poll(0, 1, rows));
    StrandedForGood(Apply(before, Poll(0, 1, rows)));
  }

  lemma {:induction false} StrandedForGood(s: System)
    requires Inv(s)
    ensures forall k, later :: k in Stranded(s) && ValidRun(s, later) ==>
              k in Stranded(Run(s, later)) && NoMoreCalls(s.calls, Run(s, later).calls, k.id)
  {
    forall k, later | k in Stranded(s) && ValidRun(s, later)
      ensures k in Stranded(Run(s, later)) && NoMoreCalls(s.calls, Run(s, later).calls, k.id)
    {
      StrandedForever(s, k, later);
    }
  }

  /** That poll can happen: the first rows, up to a batch, are one of its selections. */
  lemma {:induction false} OverflowHappens(n: nat, message: Message)
    ensures ValidRun(INITIAL, StoreMany(n, message))
    ensures Enabled(Run(INITIAL, StoreMany(n, message)),
                    Poll(0, 1, FirstKeys(if n <= Scheduler.BATCH_SIZE then n else Scheduler.BATCH_SIZE)))
  {
    AllAreClaimed(n, message);
    StoreManyStores(n, message);
    var rows := FirstKeys(if n <= Scheduler.BATCH_SIZE then n else Scheduler.BATCH_SIZE);
    assert forall i :: 0 <= i < |rows| ==> rows[i] == FirstKeys(n)[i];
  }
}
