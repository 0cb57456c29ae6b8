/**
 What delivery means on Postgres, for any number of workers, any interleaving and any
 failures: at most once always, exactly once below the top row, and no retry ever.
 */
module ProtocolDelivery {
  import opened Wrappers
  import opened Model
  import opened Postgres
  import opened Protocol
  import opened ProtocolInvariant
  import opened ProtocolSafety

  /** In every run, the transmitter is called at most once for each (id, transmission_count). */
  lemma {:induction false} TransmitAtMostOnce(steps: seq<Step>)
    requires ValidRun(INITIAL, steps)
    ensures AtMostOnce(Run(INITIAL, steps).calls)
    ensures CallsJustified(Run(INITIAL, steps).table, Run(INITIAL, steps).calls)
  {
    RunKeepsInv(INITIAL, steps);
  }

  /** Exactly one call for `k`, and it succeeded. */
  predicate SentOnce(calls: seq<Call>, k: Key) {
    exists i :: 0 <= i < |calls| && calls[i].key == k && calls[i].ok
                && forall j :: 0 <= j < |calls| && j != i ==> calls[j].key != k
  }

  lemma SentByOneCall(table: Table, calls: seq<Call>, k: Key, c: U32)
    requires NoGaps(table) && ProgressWasSent(table, calls) && AtMostOnce(calls)
    requires k in table && c < k.count
    ensures SentOnce(calls, Key(k.id, c))
  {
    var next := Key(k.id, c + 1);
    if c + 1 == k.count {
      assert next == k;
    } else {
      assert Key(k.id, next.count) in table;
    }
    assert Called(calls, Key(next.id, next.count - 1), true);
    assert Key(next.id, next.count - 1) == Key(k.id, c);
    var i :| 0 <= i < |calls| && calls[i].key == Key(k.id, c) && calls[i].ok;
    assert forall j :: 0 <= j < |calls| && j != i ==> calls[j].key != Key(k.id, c);
  }

  /** Every occurrence that the log has moved past was sent successfully, by exactly one call. */
  lemma ExactlyOnceBelowTop(s: System, k: Key, c: U32)
    requires Inv(s) && k in s.table && c < k.count
    ensures SentOnce(s.calls, Key(k.id, c))
  {
    SentByOneCall(s.table, s.calls, k, c);
  }

  lemma FinishedIsNotCalled(table: Table, calls: seq<Call>, k: Key)
    requires CallsJustified(table, calls) && LockedWasDue(table)
    requires Top(table, k) && table[k].next.None?
    ensures forall i :: 0 <= i < |calls| && calls[i].key.id == k.id ==> calls[i].key.count < k.count
  {
    forall i | 0 <= i < |calls| && calls[i].key.id == k.id ensures calls[i].key.count < k.count {
      assert CallJustified(table, calls[i]);
    }
  }

  lemma SentOccurs(table: Table, calls: seq<Call>, k: Key, c: U32)
    requires CallsJustified(table, calls) && OneScheduleEach(table)
    requires k in table && SentOnce(calls, Key(k.id, c))
    ensures table[k].schedule.Next(c).Some?
  {
    var i :| 0 <= i < |calls| && calls[i].key == Key(k.id, c);
    assert CallJustified(table, calls[i]);
  }

  /**
   Exactly once for what is finished: when the log shows a finite transmission as
   finished, the calls made for it, under whatever faults, are exactly one successful
   call for each of its planned occurrences 0, 1, ..., Planned - 1.
   */
  lemma FinishedWasFullySent(s: System, k: Key)
    requires Inv(s) && Top(s.table, k) && s.table[k].next.None? && s.table[k].schedule.Finite()
    ensures k.count == Planned(s.table[k].schedule)
    ensures forall c: U32 :: c < k.count ==> SentOnce(s.calls, Key(k.id, c))
    ensures forall i :: 0 <= i < |s.calls| && s.calls[i].key.id == k.id ==> s.calls[i].key.count < k.count
  {
    forall c: U32 | c < k.count ensures SentOnce(s.calls, Key(k.id, c)) && s.table[k].schedule.Next(c).Some? {
      SentByOneCall(s.table, s.calls, k, c);
      SentOccurs(s.table, s.calls, k, c);
    }
    FinishedIsNotCalled(s.table, s.calls, k);
    assert Consistent(Stored(k, s.table[k]));
    PlannedSplit(s.table[k].schedule, k.count);
  }

  /** No unlocked row of its id was inserted later. */
  predicate LatestUnlocked(table: Table, k: Key) {
    && k in table && !table[k].isLocked
    && forall j :: j in table && j.id == k.id && !table[j].isLocked ==> table[j].insertedAt <= table[k].insertedAt
  }

  /**
   What a reschedule would do in any state, reachable or not: unless it fails, it locks
   the latest unlocked rows of the id that was not sent, and changes nothing else.
   */
  lemma {:induction false} RescheduleLocksLatest(s: System, w: WorkerId, outcome: Outcome)
    requires Enabled(s, Reschedule(w, outcome))
    ensures var table, table', id := s.table, Apply(s, Reschedule(w, outcome)).table, s.Worker(w).current.id;
            && table'.Keys == table.Keys
            && forall k :: k in table ==>
                 var locks := outcome != NotApplied && k.id == id && LatestUnlocked(table, k);
                 table'[k] == table[k].(isLocked := table[k].isLocked || locks)
  {
  }

  /** Every reschedule that the scheduler issues leaves the whole table unchanged. */
  lemma {:induction false} RescheduleChangesNothing(steps: seq<Step>, w: WorkerId, outcome: Outcome)
    requires ValidRun(INITIAL, steps) && Enabled(Run(INITIAL, steps), Reschedule(w, outcome))
    ensures Apply(Run(INITIAL, steps), Reschedule(w, outcome)).table == Run(INITIAL, steps).table
  {
    var s := Run(INITIAL, steps);
    RunKeepsInv(INITIAL, steps);
    ResolvingKeepsInv(s, w);
    HeldHasNothingToReschedule(s.table, s.workers[w].current);
  }

  /** In every run, a save is refused for its primary key only when a 32-bit count wraps. */
  lemma {:induction false} SaveNeverConflicts(steps: seq<Step>, w: WorkerId)
    requires ValidRun(INITIAL, steps) && Run(INITIAL, steps).Worker(w).Sent?
    ensures var s := Run(INITIAL, steps);
            var t := s.Worker(w).current;
            && t.Transmitted().Ok?
            && forall now :: Insert(s.table, t.Transmitted().value, now) == Err(UniqueViolation)
                             <==> t.transmissionCount == U32_MODULUS - 1
  {
    RunKeepsInv(INITIAL, steps);
    ResolvingKeepsInv(Run(INITIAL, steps), w);
    SaveConflict(Run(INITIAL, steps).table, Run(INITIAL, steps).workers[w].current);
  }

  // ---- Where calls come from ----

  /** Worker `w` polled with clock reading `at`, and the statement returned `k`. */
  predicate PolledBy(past: seq<Step>, w: WorkerId, k: Key, at: Time) {
    exists i :: 0 <= i < |past| && past[i].Poll? && past[i].w == w && past[i].now == at && k in past[i].rows
  }

  predicate HoldingsTraced(workers: map<WorkerId, Worker>, past: seq<Step>) {
    forall w, t :: w in workers && t in Holding(workers[w]) ==> PolledBy(past, w, KeyOf(t), workers[w].now)
  }

  ghost predicate CallTraced(call: Call, past: seq<Step>) {
    exists w :: PolledBy(past, w, call.key, call.at)
  }

  ghost predicate CallsTraced(calls: seq<Call>, past: seq<Step>) {
    forall i :: 0 <= i < |calls| ==> CallTraced(calls[i], past)
  }

  lemma {:induction false} TraceGrows(past: seq<Step>, step: Step)
    ensures forall w, k, at :: PolledBy(past, w, k, at) ==> PolledBy(past + [step], w, k, at)
    ensures step.Poll? ==> forall k :: k in step.rows ==> PolledBy(past + [step], step.w, k, step.now)
  {
    var longer := past + [step];
    forall w, k, at | PolledBy(past, w, k, at) ensures PolledBy(longer, w, k, at) {
      var i :| 0 <= i < |past| && past[i].Poll? && past[i].w == w && past[i].now == at && k in past[i].rows;
      assert longer[i] == past[i];
    }
    assert longer[|past|] == step;
  }

  lemma {:induction false} StepKeepsHoldingsTraced(s: System, step: Step, past: seq<Step>)
    requires TableInv(s.table) && Enabled(s, step) && HoldingsTraced(s.workers, past)
    ensures HoldingsTraced(Apply(s, step).workers, past + [step])
  {
    TraceGrows(past, step);
    if step.Poll? {
      PolledQueueMembers(s.table, step.now, step.rows);
    }
    if step.Send? {
      CallKeepsHolding(s.workers[step.w], step.ok);
    }
  }

  lemma {:induction false} StepKeepsCallsTraced(s: System, step: Step, past: seq<Step>)
    requires Enabled(s, step) && HoldingsTraced(s.workers, past) && CallsTraced(s.calls, past)
    ensures CallsTraced(Apply(s, step).calls, past + [step])
  {
    TraceGrows(past, step);
    var calls' := Apply(s, step).calls;
    if !step.Send? {
      CallsOnlyBySend(s, step);
    }
    forall i | 0 <= i < |calls'| ensures CallTraced(calls'[i], past + [step]) {
      if i < |s.calls| {
        assert CallTraced(s.calls[i], past);
        var w :| PolledBy(past, w, s.calls[i].key, s.calls[i].at);
        assert calls'[i] == s.calls[i];
        assert PolledBy(past + [step], w, calls'[i].key, calls'[i].at);
      } else {
        var t := s.workers[step.w].queue[0];
        assert t in Holding(s.workers[step.w]);
        assert PolledBy(past + [step], step.w, KeyOf(t), s.workers[step.w].now);
      }
    }
  }

  lemma {:induction false} RunKeepsTraced(s: System, steps: seq<Step>, past: seq<Step>)
    requires Inv(s) && ValidRun(s, steps) && HoldingsTraced(s.workers, past) && CallsTraced(s.calls, past)
    ensures CallsTraced(Run(s, steps).calls, past + steps)
    decreases steps
  {
    if steps == [] {
      assert past + steps == past;
    } else {
      StepKeepsInv(s, steps[0]);
      StepKeepsHoldingsTraced(s, steps[0], past);
      StepKeepsCallsTraced(s, steps[0], past);
      RunKeepsTraced(Apply(s, steps[0]), steps[1..], past + [steps[0]]);
      assert past + [steps[0]] + steps[1..] == past + steps;
    }
  }

  /** Every call was for a row that a poll of the run returned, at the clock reading of that poll. */
  lemma {:induction false} CallsFollowPolls(steps: seq<Step>)
    requires ValidRun(INITIAL, steps)
    ensures CallsTraced(Run(INITIAL, steps).calls, steps)
  {
    InvInitially();
    RunKeepsTraced(INITIAL, steps, []);
    assert [] + steps == steps;
  }

  // ---- No retry ----

  /** `later` extends `calls` without another call for `id`. */
  predicate NoMoreCalls(calls: seq<Call>, later: seq<Call>, id: Id) {
    && |calls| <= |later| && later[..|calls|] == calls
    && forall i :: |calls| <= i < |later| ==> later[i].key.id != id
  }

  lemma NoMoreCallsTransitive(a: seq<Call>, b: seq<Call>, c: seq<Call>, id: Id)
    requires NoMoreCalls(a, b, id) && NoMoreCalls(b, c, id)
    ensures NoMoreCalls(a, c, id)
  {
    assert c[..|a|] == c[..|b|][..|a|];
    forall i | |a| <= i < |c| ensures c[i].key.id != id {
      if i < |b| {
        assert c[i] == c[..|b|][i];
      }
    }
  }

  /** After a failed call its row stays the top row of the id. */
  lemma FailedIsTop(s: System, k: Key)
    requires Inv(s) && Called(s.calls, k, false)
    ensures Top(s.table, k)
  {
    var i :| 0 <= i < |s.calls| && s.calls[i].key == k && !s.calls[i].ok;
    assert CallJustified(s.table, s.calls[i]);
    forall j | j in s.table && j.id == k.id ensures j.count <= k.count {
      if j.count > k.count {
        ExactlyOnceBelowTop(s, j, k.count);
      }
    }
  }

  lemma FailedIsNotQueued(s: System, k: Key, w: WorkerId, t: Transmission)
    requires Inv(s) && Called(s.calls, k, false)
    requires w in s.workers && t in s.workers[w].queue
    ensures t.id != k.id
  {
    assert t in Holding(s.workers[w]);
    assert Claimed(s.table, t) && NeverCalled(s.calls, KeyOf(t));
    FailedIsTop(s, k);
    if t.id == k.id {
      TopIsUnique(s.table, KeyOf(t), k);
    }
  }

  lemma CallsOnlyBySend(s: System, step: Step)
    requires Enabled(s, step) && !step.Send?
    ensures Apply(s, step).calls == s.calls
    ensures forall id :: NoMoreCalls(s.calls, Apply(s, step).calls, id)
  {
    assert s.calls[..|s.calls|] == s.calls;
  }

  lemma CallBySend(s: System, w: WorkerId, ok: bool, id: Id)
    requires Enabled(s, Send(w, ok)) && s.Worker(w).queue[0].id != id
    ensures NoMoreCalls(s.calls, Apply(s, Send(w, ok)).calls, id)
    ensures forall k, b :: Called(s.calls, k, b) ==> Called(Apply(s, Send(w, ok)).calls, k, b)
  {
    var t := s.Worker(w).queue[0];
    CalledStays(s.calls, Call(KeyOf(t), t.message, s.Worker(w).now, ok));
  }

  lemma FailedIsNotSentAgain(s: System, k: Key, step: Step)
    requires Inv(s) && Called(s.calls, k, false) && Enabled(s, step)
    ensures NoMoreCalls(s.calls, Apply(s, step).calls, k.id)
    ensures Called(Apply(s, step).calls, k, false)
  {
    if step.Send? {
      FailedIsNotQueued(s, k, step.w, s.workers[step.w].queue[0]);
      CallBySend(s, step.w, step.ok, k.id);
    } else {
      CallsOnlyBySend(s, step);
    }
  }

  /**
   A failed send is final: whatever happens afterwards, no worker ever calls the
   transmitter for that id again, and its log never gets past the failed occurrence.
   */
  lemma {:induction false} FailedSendIsFinal(s: System, k: Key, steps: seq<Step>)
    requires Inv(s) && Called(s.calls, k, false) && ValidRun(s, steps)
    ensures NoMoreCalls(s.calls, Run(s, steps).calls, k.id)
    ensures Top(Run(s, steps).table, k)
    decreases steps
  {
    if steps == [] {
      FailedIsTop(s, k);
    } else {
      var s' := Apply(s, steps[0]);
      StepKeepsInv(s, steps[0]);
      FailedIsNotSentAgain(s, k, steps[0]);
      FailedSendIsFinal(s', k, steps[1..]);
      NoMoreCallsTransitive(s.calls, s'.calls, Run(s', steps[1..]).calls, k.id);
    }
  }
}
