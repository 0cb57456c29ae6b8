/**
 Both repositories as one abstract store: a map from id to the current transmission,
 into which storing inserts and which saving overwrites.
 */
module Refinement {
  import opened Model
  import opened Postgres
  import opened Protocol
  import opened ProtocolInvariant
  import opened ProtocolSafety
  import InMemory
  import Scheduler

  type Abstract = map<Id, Transmission>

  // ---- The in-memory list ----

  function OfMemory(s: seq<Transmission>): Abstract
    requires InMemory.DistinctIds(s)
  {
    map t | t in s :: t.id := t
  }

  lemma MemoryAt(s: seq<Transmission>, t: Transmission)
    requires InMemory.DistinctIds(s) && t in s
    ensures t.id in OfMemory(s) && OfMemory(s)[t.id] == t
  {
  }

  lemma MemoryStoreRefines(s: seq<Transmission>, t: Transmission)
    requires InMemory.DistinctIds(s) && t.id !in OfMemory(s)
    ensures InMemory.DistinctIds(s + [t]) && OfMemory(s + [t]) == OfMemory(s)[t.id := t]
  {
    forall x, y | x in s && y in [t] ensures x.id != y.id {
      MemoryAt(s, x);
    }
    InMemory.DistinctAppend(s, [t]);
    assert forall u :: u in s + [t] <==> u in s || u == t;
  }

  lemma OverwriteMembers(s: seq<Transmission>, t: Transmission)
    requires exists u :: u in s && u.id == t.id
    ensures forall u :: u in InMemory.Overwrite(s, t) <==> u == t || (u in s && u.id != t.id)
  {
    var s' := InMemory.Overwrite(s, t);
    forall u | u == t || (u in s && u.id != t.id) ensures u in s' {
      var i :| 0 <= i < |s| && (if u == t then s[i].id == t.id else s[i] == u);
      assert s'[i] == u;
    }
  }

  lemma MapWithEntry(s: seq<Transmission>, s': seq<Transmission>, t: Transmission)
    requires InMemory.DistinctIds(s) && InMemory.DistinctIds(s')
    requires forall u :: u in s' <==> u == t || (u in s && u.id != t.id)
    ensures OfMemory(s') == OfMemory(s)[t.id := t]
  {
    forall u | u in s' ensures OfMemory(s')[u.id] == u {
      MemoryAt(s', u);
    }
    forall u | u in s ensures OfMemory(s)[u.id] == u {
      MemoryAt(s, u);
    }
  }

  lemma MemorySaveRefines(s: seq<Transmission>, t: Transmission)
    requires InMemory.DistinctIds(s) && t.id in OfMemory(s)
    ensures InMemory.DistinctIds(InMemory.Overwrite(s, t))
    ensures OfMemory(InMemory.Overwrite(s, t)) == OfMemory(s)[t.id := t]
  {
    InMemory.OverwriteFrame(s, t, []);
    OverwriteMembers(s, t);
    MapWithEntry(s, InMemory.Overwrite(s, t), t);
  }

  /** A poll returns due entries of the map, each id at most once. */
  lemma {:induction false} MemoryPollRefines(s: seq<Transmission>, before: Time, cap: nat)
    requires InMemory.DistinctIds(s)
    ensures InMemory.DistinctIds(InMemory.Poll(s, before, cap))
    ensures forall u :: u in InMemory.Poll(s, before, cap) ==>
              u.id in OfMemory(s) && OfMemory(s)[u.id] == u && InMemory.Due(u, before)
  {
    InMemory.PolledAreDueEntries(s, before, cap);
  }

  // ---- The Postgres log ----

  /** The highest-count row of each id. */
  function OfLog(table: Table): Abstract {
    map k | k in table && Top(table, k) :: k.id := Stored(k, table[k])
  }

  lemma OfLogAt(table: Table, k: Key)
    requires Top(table, k)
    ensures k.id in OfLog(table) && OfLog(table)[k.id] == Stored(k, table[k])
  {
  }

  datatype Action = Insert(t: Transmission) | Advance(id: Id) | Stutter

  function AbstractApply(m: Abstract, action: Action): Abstract {
    match action
    case Insert(t) => m[t.id := t]
    case Advance(id) =>
      if id in m && m[id].Transmitted().Ok? then m[id := m[id].Transmitted().value] else m
    case Stutter => m
  }

  /** The abstract action that a step of the protocol takes. */
  function ActionOf(step: Step, s: System): Action
    requires Enabled(s, step)
  {
    match step
    case Store(t, _, outcome) => if outcome == NotApplied then Stutter else Insert(t)
    case Save(w, _, outcome) =>
      var t := s.Worker(w).current;
      if outcome == NotApplied || t.transmissionCount == U32_MODULUS - 1 then Stutter else Advance(t.id)
    case Poll(_, _, _) => Stutter
    case PollFails(_, _, _) => Stutter
    case Send(_, _) => Stutter
    case Reschedule(_, _) => Stutter
    case Crash(_) => Stutter
  }

  lemma LockRefines(table: Table, keys: set<Key>)
    ensures OfLog(Lock(table, keys)) == OfLog(table)
  {
    var table' := Lock(table, keys);
    assert forall k :: Top(table', k) <==> Top(table, k);
    assert forall k :: k in table ==> Stored(k, table'[k]) == Stored(k, table[k]);
    forall id ensures id in OfLog(table') <==> id in OfLog(table) {
      if id in OfLog(table) {
        var k :| k in table && Top(table, k) && k.id == id;
        OfLogAt(table', k);
      }
    }
  }

  lemma AppendKeepsOtherTops(table: Table, t: Transmission, now: Time)
    requires NextRow(table, t)
    ensures var table' := table[KeyOf(t) := RowOf(t, now)];
            forall k :: Top(table', k) <==> if k.id == t.id then k == KeyOf(t) else Top(table, k)
  {
    var table' := table[KeyOf(t) := RowOf(t, now)];
    assert KeyOf(t) in table';
    forall k: Key | k.id != t.id ensures Top(table', k) <==> Top(table, k) {
      assert forall j: Key :: j.id == k.id ==> (j in table' <==> j in table);
    }
  }

  lemma OfLogDomain(table: Table, id: Id)
    requires id in OfLog(table)
    ensures exists k :: Top(table, k) && k.id == id
  {
    var k :| k in table && Top(table, k) && k.id == id;
  }

  /** Two logs agree on an id that has the same top row in both. */
  lemma SameTopSameEntry(a: Table, b: Table, id: Id)
    requires forall k: Key :: k.id == id ==> (Top(a, k) <==> Top(b, k))
    requires forall k: Key :: k.id == id && k in a && k in b ==> a[k] == b[k]
    ensures id in OfLog(a) <==> id in OfLog(b)
    ensures id in OfLog(a) ==> OfLog(a)[id] == OfLog(b)[id]
  {
    if id in OfLog(a) {
      OfLogDomain(a, id);
      var k :| Top(a, k) && k.id == id;
      OfLogAt(a, k);
      OfLogAt(b, k);
    }
    if id in OfLog(b) {
      OfLogDomain(b, id);
      var k :| Top(b, k) && k.id == id;
      OfLogAt(a, k);
    }
  }

  /** Appending the row of a new id, or the next row of an id, is inserting into the map. */
  lemma AppendRefines(table: Table, t: Transmission, now: Time)
    requires NextRow(table, t)
    ensures OfLog(table[KeyOf(t) := RowOf(t, now)]) == OfLog(table)[t.id := t]
  {
    var table' := table[KeyOf(t) := RowOf(t, now)];
    AppendKeepsOtherTops(table, t, now);
    OfLogAt(table', KeyOf(t));
    var before, after := OfLog(table)[t.id := t], OfLog(table');
    forall id ensures id in after <==> id in before
              ensures id in after ==> after[id] == before[id]
    {
      if id != t.id {
        SameTopSameEntry(table, table', id);
      }
    }
  }

  lemma ChangeRefines(table: Table, change: TableChange)
    requires change.Append? ==> NextRow(table, change.t)
    ensures OfLog(Changed(table, change))
            == if change.Append? then OfLog(table)[change.t.id := change.t] else OfLog(table)
  {
    match change
    case Same =>
    case LockClaims(now) => LockRefines(table, Claims(table, now));
    case Append(t, insertedAt) => AppendRefines(table, t, insertedAt);
  }

  lemma ActionIsChange(s: System, step: Step)
    requires Enabled(s, step)
    requires step.Save? ==> Claimed(s.table, s.Worker(step.w).current)
    ensures var change := ChangeOf(s, step);
            AbstractApply(OfLog(s.table), ActionOf(step, s))
            == if change.Append? then OfLog(s.table)[change.t.id := change.t] else OfLog(s.table)
  {
    if step.Save? {
      OfLogAt(s.table, KeyOf(s.Worker(step.w).current));
    }
  }

  /** Every step of the Postgres protocol takes one action on the abstract store. */
  lemma StepRefines(s: System, step: Step)
    requires Inv(s) && Enabled(s, step)
    ensures OfLog(Apply(s, step).table) == AbstractApply(OfLog(s.table), ActionOf(step, s))
  {
    StepChange(s, step);
    ActionIsChange(s, step);
    ChangeRefines(s.table, ChangeOf(s, step));
  }

  function AbstractRun(m: Abstract, s: System, steps: seq<Step>): Abstract
    requires ValidRun(s, steps)
    decreases steps
  {
    if steps == [] then m
    else AbstractRun(AbstractApply(m, ActionOf(steps[0], s)), Apply(s, steps[0]), steps[1..])
  }

  /** The Postgres log refines the map over whole runs. */
  lemma {:induction false} RunRefines(s: System, steps: seq<Step>)
    requires Inv(s) && ValidRun(s, steps)
    ensures OfLog(Run(s, steps).table) == AbstractRun(OfLog(s.table), s, steps)
    decreases steps
  {
    if steps != [] {
      StepRefines(s, steps[0]);
      StepKeepsInv(s, steps[0]);
      RunRefines(Apply(s, steps[0]), steps[1..]);
    }
  }

  /** Whatever a poll returns is a due entry of the map, each id at most once. */
  lemma PollRefines(table: Table, before: Time, rows: seq<Key>)
    requires TableInv(table) && IsSelection(rows, Claims(table, before), Scheduler.BATCH_SIZE)
    ensures InMemory.DistinctIds(StoredAll(table, rows))
    ensures forall t :: t in StoredAll(table, rows) ==>
              t.id in OfLog(table) && OfLog(table)[t.id] == t && t.next.Some? && t.next.value < before
  {
    var all := StoredAll(table, rows);
    SelectedHaveDistinctIds(table, before, rows);
    forall t | t in all
      ensures t.id in OfLog(table) && OfLog(table)[t.id] == t && t.next.Some? && t.next.value < before
    {
      var i :| 0 <= i < |all| && all[i] == t;
      UnlockedIsTop(table, rows[i]);
      OfLogAt(table, rows[i]);
    }
  }
}
