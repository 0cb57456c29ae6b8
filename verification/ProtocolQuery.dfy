/**
 What the poll's query finds: which due rows it claims, and how that depends on the
 database clock that stamps `inserted_at`.
 */
module ProtocolQuery {
  import opened Wrappers
  import opened Model
  import opened Postgres
  import opened Protocol
  import opened ProtocolInvariant
  import opened ProtocolSafety
  import ProtocolDelivery

  /** The poll's condition without the "latest entry" sub-query. */
  function UnlockedDue(table: Table, before: Time): set<Key> {
    set k | k in table && !table[k].isLocked && table[k].next.Some? && table[k].next.value < before
  }

  /** Some row of the same id carries a later stamp. */
  predicate Shadowed(table: Table, k: Key)
    requires k in table
  {
    exists j :: j in table && j.id == k.id && table[k].insertedAt < table[j].insertedAt
  }

  /** On any table the sub-query leaves out exactly the shadowed rows. */
  lemma ClaimsExactly(table: Table, before: Time)
    ensures forall k :: k in Claims(table, before) <==> k in UnlockedDue(table, before) && !Shadowed(table, k)
  {
    forall k | k in table ensures IsLatestEntry(table, k.id, table[k].insertedAt) <==> !Shadowed(table, k) {
    }
  }

  // ---- Rows that no poll sees ----

  /** An unlocked row that the query cannot see. */
  predicate Invisible(table: Table, k: Key) {
    k in table && !table[k].isLocked && Shadowed(table, k)
  }

  /** Whether a row is looked at: every row, or only those with an occurrence to send. */
  predicate Matters(next: Option<Time>, finishedToo: bool) {
    finishedToo || next.Some?
  }

  predicate NothingInvisible(table: Table, finishedToo: bool) {
    forall k :: k in table && Invisible(table, k) ==> !Matters(table[k].next, finishedToo)
  }

  /** The sub-query makes no difference to any poll exactly when no row with an occurrence to send is invisible. */
  lemma RedundantIffNothingInvisible(table: Table)
    ensures (forall before :: Claims(table, before) == UnlockedDue(table, before)) <==> NothingInvisible(table, false)
  {
    forall before ensures forall k :: k in Claims(table, before) <==> k in UnlockedDue(table, before) && !Shadowed(table, k) {
      ClaimsExactly(table, before);
    }
    if !NothingInvisible(table, false) {
      var k :| k in table && Invisible(table, k) && table[k].next.Some?;
      var before := table[k].next.value + 1;
      assert k in UnlockedDue(table, before) && k !in Claims(table, before);
    }
  }

  /** No top row is shadowed. */
  predicate TopsVisible(table: Table, finishedToo: bool) {
    forall k :: k in table && Top(table, k) && Matters(table[k].next, finishedToo) ==> !Shadowed(table, k)
  }

  lemma VisibleTops(table: Table, finishedToo: bool)
    requires TableInv(table) && TopsVisible(table, finishedToo)
    ensures NothingInvisible(table, finishedToo)
  {
    forall k | Invisible(table, k) ensures !Matters(table[k].next, finishedToo) {
      UnlockedIsTop(table, k);
    }
  }

  // ---- Saves that go forward ----

  /** A save that commits does so at a clock reading no earlier than the stamp of the row it advances. */
  predicate GoesForward(s: System, step: Step, finishedToo: bool)
    requires Enabled(s, step)
  {
    step.Save? && ChangeOf(s, step).Append? && Matters(ChangeOf(s, step).t.next, finishedToo) ==>
      var k := KeyOf(s.Worker(step.w).current);
      k in s.table ==> s.table[k].insertedAt <= step.insertedAt
  }

  predicate SavesForward(s: System, steps: seq<Step>, finishedToo: bool)
    requires ValidRun(s, steps)
    decreases steps
  {
    steps == []
    || (GoesForward(s, steps[0], finishedToo) && SavesForward(Apply(s, steps[0]), steps[1..], finishedToo))
  }

  lemma AppendKeepsVisible(table: Table, t: Transmission, insertedAt: Time, finishedToo: bool)
    requires TopsVisible(table, finishedToo) && NextRow(table, t)
    requires Matters(t.next, finishedToo) ==>
               forall j :: j in table && j.id == t.id ==> table[j].insertedAt <= insertedAt
    ensures TopsVisible(table[KeyOf(t) := RowOf(t, insertedAt)], finishedToo)
  {
    var table' := table[KeyOf(t) := RowOf(t, insertedAt)];
    assert KeyOf(t) in table';
    forall k | Top(table', k) && Matters(table'[k].next, finishedToo) ensures !Shadowed(table', k) {
      if k != KeyOf(t) {
        assert k.id != t.id;
        assert forall j :: j in table ==> j in table';
        assert Top(table, k);
      }
    }
  }

  lemma LockKeepsVisible(table: Table, keys: set<Key>, finishedToo: bool)
    requires TopsVisible(table, finishedToo)
    ensures TopsVisible(Lock(table, keys), finishedToo)
  {
    var table' := Lock(table, keys);
    assert forall k :: k in table' <==> k in table;
    forall k | Top(table', k) && Matters(table'[k].next, finishedToo) ensures !Shadowed(table', k) {
      assert Top(table, k);
    }
  }

  lemma StepKeepsVisible(s: System, step: Step, finishedToo: bool)
    requires Inv(s) && Enabled(s, step)
    requires TopsVisible(s.table, finishedToo) && GoesForward(s, step, finishedToo)
    ensures TopsVisible(Apply(s, step).table, finishedToo)
  {
    StepChange(s, step);
    match ChangeOf(s, step)
    case Same =>
    case LockClaims(now) => LockKeepsVisible(s.table, Claims(s.table, now), finishedToo);
    case Append(t, insertedAt) =>
      if step.Save? {
        var k := KeyOf(s.Worker(step.w).current);
        assert Top(s.table, k) && !Shadowed(s.table, k);
      }
      AppendKeepsVisible(s.table, t, insertedAt, finishedToo);
  }

  // ---- Saves that go back ----

  /** An occurrence that is saved at an earlier clock reading than the one before is invisible. */
  lemma BackwardSaveIsInvisible(s: System, w: WorkerId, insertedAt: Time, outcome: Outcome)
    requires Inv(s) && Enabled(s, Save(w, insertedAt, outcome)) && outcome != NotApplied
    requires var t := s.Worker(w).current;
             && t.next.Some? && t.transmissionCount != U32_MODULUS - 1
             && KeyOf(t) in s.table && insertedAt < s.table[KeyOf(t)].insertedAt
    ensures var table', t' := Apply(s, Save(w, insertedAt, outcome)).table, s.Worker(w).current.Transmitted().value;
            Invisible(table', KeyOf(t')) && table'[KeyOf(t')] == RowOf(t', insertedAt)
  {
    var t := s.workers[w].current;
    ResolvingKeepsInv(s, w);
    SaveEffect(s, w, insertedAt, outcome);
    SaveConflict(s.table, t);
    var table' := Apply(s, Save(w, insertedAt, outcome)).table;
    assert table'[KeyOf(t)].insertedAt == s.table[KeyOf(t)].insertedAt;
  }

  lemma InvisibleAfterChange(table: Table, change: TableChange, k: Key)
    requires Invisible(table, k) && (change.Append? ==> NextRow(table, change.t))
    ensures Invisible(Changed(table, change), k) && Changed(table, change)[k] == table[k]
  {
    var table' := Changed(table, change);
    var j :| j in table && j.id == k.id && table[k].insertedAt < table[j].insertedAt;
    if change.LockClaims? {
      ClaimsExactly(table, change.now);
      assert k !in Claims(table, change.now);
    }
    assert j in table' && table'[j].insertedAt == table[j].insertedAt;
    assert table'[k] == table[k];
  }

  /** Nobody holds the id of an unlocked row. */
  lemma UnlockedIsFree(s: System, k: Key)
    requires Inv(s) && k in s.table && !s.table[k].isLocked
    ensures NobodyHolds(s.workers, k.id)
  {
    UnlockedIsTop(s.table, k);
    forall w, t | w in s.workers && t in Holding(s.workers[w]) ensures t.id != k.id {
      assert Claimed(s.table, t);
      if t.id == k.id {
        TopIsUnique(s.table, KeyOf(t), k);
      }
    }
  }

  lemma UnlockedIsNotQueued(s: System, k: Key, w: WorkerId)
    requires Inv(s) && k in s.table && !s.table[k].isLocked
    requires w in s.workers && s.workers[w].Working? && s.workers[w].queue != []
    ensures s.workers[w].queue[0].id != k.id
  {
    UnlockedIsFree(s, k);
    assert s.workers[w].queue[0] in Holding(s.workers[w]);
  }

  lemma InvisibleIsNotSent(s: System, k: Key, step: Step)
    requires Inv(s) && Enabled(s, step) && k in s.table && !s.table[k].isLocked
    ensures ProtocolDelivery.NoMoreCalls(s.calls, Apply(s, step).calls, k.id)
  {
    if step.Send? {
      UnlockedIsNotQueued(s, k, step.w);
      ProtocolDelivery.CallBySend(s, step.w, step.ok, k.id);
    } else {
      ProtocolDelivery.CallsOnlyBySend(s, step);
    }
  }

  lemma InvisibleStays(s: System, k: Key, step: Step)
    requires Inv(s) && Enabled(s, step) && Invisible(s.table, k)
    ensures Invisible(Apply(s, step).table, k) && Apply(s, step).table[k] == s.table[k]
    ensures ProtocolDelivery.NoMoreCalls(s.calls, Apply(s, step).calls, k.id)
  {
    StepChange(s, step);
    InvisibleAfterChange(s.table, ChangeOf(s, step), k);
    InvisibleIsNotSent(s, k, step);
  }

  /**
   An invisible row is never sent, however often and however late workers poll: the
   wait for a row that the database clock put in the past does not end.
   */
  lemma {:induction false} InvisibleForever(s: System, k: Key, steps: seq<Step>)
    requires Inv(s) && ValidRun(s, steps) && Invisible(s.table, k)
    ensures Invisible(Run(s, steps).table, k) && Run(s, steps).table[k] == s.table[k]
    ensures ProtocolDelivery.NoMoreCalls(s.calls, Run(s, steps).calls, k.id)
    decreases steps
  {
    if steps != [] {
      var s' := Apply(s, steps[0]);
      InvisibleStays(s, k, steps[0]);
      StepKeepsInv(s, steps[0]);
      InvisibleForever(s', k, steps[1..]);
      ProtocolDelivery.NoMoreCallsTransitive(s.calls, s'.calls, Run(s', steps[1..]).calls, k.id);
    }
  }

  // ---- Exactly when the query sees every unlocked row ----

  /**
   Over every run: no unlocked row is invisible at the end if and only if every committed
   save came at or after the stamp of the row it advanced. With `finishedToo` false this
   looks only at rows, and saves of rows, that have an occurrence to send.
   */
  lemma {:induction false} NothingInvisibleIff(s: System, steps: seq<Step>, finishedToo: bool)
    requires Inv(s) && ValidRun(s, steps) && TopsVisible(s.table, finishedToo)
    ensures NothingInvisible(Run(s, steps).table, finishedToo) <==> SavesForward(s, steps, finishedToo)
    decreases steps
  {
    if steps == [] {
      VisibleTops(s.table, finishedToo);
    } else {
      var step, s' := steps[0], Apply(s, steps[0]);
      StepKeepsInv(s, step);
      if GoesForward(s, step, finishedToo) {
        StepKeepsVisible(s, step, finishedToo);
        NothingInvisibleIff(s', steps[1..], finishedToo);
      } else {
        var k := KeyOf(ChangeOf(s, step).t);
        BackwardSaveIsInvisible(s, step.w, step.insertedAt, step.outcome);
        InvisibleForever(s', k, steps[1..]);
        assert Invisible(Run(s', steps[1..]).table, k);
      }
    }
  }

  /**
   Query equivalence: after a run from the empty table, every poll claims exactly the
   unlocked rows that are due if and only if no save of an occurrence that is still to be
   sent committed at a clock reading earlier than the stamp of the row before.
   */
  lemma {:induction false} QueryEquivalence(steps: seq<Step>)
    requires ValidRun(INITIAL, steps)
    ensures (forall before ::
              Claims(Run(INITIAL, steps).table, before) == UnlockedDue(Run(INITIAL, steps).table, before))
            <==> SavesForward(INITIAL, steps, false)
  {
    NothingInvisibleIff(INITIAL, steps, false);
    RedundantIffNothingInvisible(Run(INITIAL, steps).table);
  }
}
