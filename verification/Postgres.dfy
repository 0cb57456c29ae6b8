/**
 The Postgres repository of src/repository_postgres.rs: an append-only table in which
 each SQL statement is one atomic step. The map from (id, transmission_count) to the
 other columns is the table under its primary key.
 */
module Postgres {
  import opened Wrappers
  import opened Model

  datatype Key = Key(id: Id, count: U32)

  datatype Row = Row(
    schedule: Schedule, next: Option<Time>, message: Message, insertedAt: Time, isLocked: bool)

  type Table = map<Key, Row>

  datatype DatabaseError = UniqueViolation

  function KeyOf(t: Transmission): Key {
    Key(t.id, t.transmissionCount)
  }

  function RowOf(t: Transmission, insertedAt: Time): Row {
    Row(t.schedule, t.next, t.message, insertedAt, false)
  }

  /** The transmission that a row holds. */
  function Stored(k: Key, row: Row): Transmission {
    Transmission(k.id, row.schedule, row.next, k.count, row.message)
  }

  // ---- The statements as functions on the table ----

  /** INSERT: refused when the primary key is taken. */
  function Insert(table: Table, t: Transmission, now: Time): Result<Table, DatabaseError> {
    if KeyOf(t) in table then Err(UniqueViolation) else Ok(table[KeyOf(t) := RowOf(t, now)])
  }

  /** (id, latest) is a row of `SELECT id, MAX(inserted_at) FROM transmission GROUP BY id`. */
  predicate IsLatestEntry(table: Table, id: Id, latest: Time) {
    && (exists k :: k in table && k.id == id && table[k].insertedAt == latest)
    && (forall k :: k in table && k.id == id ==> table[k].insertedAt <= latest)
  }

  /**
   The condition of the poll's UPDATE. In the sub-query `inserted_at` can only be
   that of the row being updated: the inner relation has no such column.
   */
  predicate Claimable(table: Table, k: Key, before: Time)
    requires k in table
  {
    && IsLatestEntry(table, k.id, table[k].insertedAt)
    && table[k].next.Some?
    && table[k].next.value < before
    && !table[k].isLocked
  }

  function Claims(table: Table, before: Time): set<Key> {
    set k | k in table && Claimable(table, k, before)
  }

  function Lock(table: Table, keys: set<Key>): Table {
    map k | k in table :: if k in keys then table[k].(isLocked := true) else table[k]
  }

  /** The rows that `reschedule` updates: the latest inserted of the unlocked rows of `id`. */
  function RescheduleTargets(table: Table, id: Id): set<Key> {
    set k | k in table && k.id == id && !table[k].isLocked
            && forall j :: j in table && j.id == id && !table[j].isLocked ==> table[j].insertedAt <= table[k].insertedAt
  }

  /** LIMIT without ORDER BY: any `limit` of the claimed rows, in any order. */
  predicate IsSelection(rows: seq<Key>, claimed: set<Key>, limit: nat) {
    && (forall i, j :: 0 <= i < j < |rows| ==> rows[i] != rows[j])
    && (forall i :: 0 <= i < |rows| ==> rows[i] in claimed)
    && |rows| == if |claimed| <= limit then |claimed| else limit
  }

  function StoredAll(table: Table, rows: seq<Key>): seq<Transmission>
    requires forall i :: 0 <= i < |rows| ==> rows[i] in table
  {
    seq(|rows|, i requires 0 <= i < |rows| => Stored(rows[i], table[rows[i]]))
  }

  /** Locking rows takes them from every poll and gives no poll a row it did not have. */
  lemma LockTakesClaims(table: Table, keys: set<Key>, before: Time)
    ensures Claims(Lock(table, keys), before) == Claims(table, before) - keys
  {
    var table' := Lock(table, keys);
    assert forall k :: k in table' <==> k in table;
    forall k | k in table
      ensures IsLatestEntry(table', k.id, table'[k].insertedAt) <==> IsLatestEntry(table, k.id, table[k].insertedAt)
    {
      assert forall j :: j in table ==> table'[j].insertedAt == table[j].insertedAt;
    }
  }

  /** As long as an id has an unlocked row, rescheduling it locks one: the latest inserted. */
  lemma {:induction false} RescheduleFindsTarget(table: Table, id: Id, rest: set<Key>)
    requires rest != {} && forall k :: k in rest ==> k in table && k.id == id && !table[k].isLocked
    ensures exists k :: k in rest && forall j :: j in rest ==> table[j].insertedAt <= table[k].insertedAt
    decreases |rest|
  {
    var k :| k in rest;
    if rest - {k} != {} {
      RescheduleFindsTarget(table, id, rest - {k});
      var l :| l in rest - {k} && forall j :: j in rest - {k} ==> table[j].insertedAt <= table[l].insertedAt;
      var m := if table[k].insertedAt <= table[l].insertedAt then l else k;
      assert m in rest && forall j :: j in rest ==> j == k || j in rest - {k};
    } else {
      assert rest == {k};
    }
  }

  /**
   What the statement of `reschedule` does on any table: it never makes a row claimable
   by any poll, and when its id has unlocked rows it takes one from every poll.
   */
  lemma RescheduleNeverReleases(table: Table, id: Id, before: Time)
    ensures var targets := RescheduleTargets(table, id);
            && Claims(Lock(table, targets), before) == Claims(table, before) - targets
            && (targets == {} <==> forall k :: k in table && k.id == id ==> table[k].isLocked)
  {
    LockTakesClaims(table, RescheduleTargets(table, id), before);
    var unlocked := set k | k in table && k.id == id && !table[k].isLocked;
    if unlocked != {} {
      RescheduleFindsTarget(table, id, unlocked);
      var k :| k in unlocked && forall j :: j in unlocked ==> table[j].insertedAt <= table[k].insertedAt;
      assert k in RescheduleTargets(table, id);
    } else {
      assert forall k :: k in table && k.id == id && !table[k].isLocked ==> k in unlocked;
    }
  }

  class RepositoryPostgres {
    var table: Table

    constructor ()
      ensures table == map[]
    {
      table := map[];
    }

    /** The row reads back as what was stored, and no other row is changed or removed. */
    method StoreTransmission(t: Transmission, now: Time) returns (r: Result<(), DatabaseError>)
      modifies this
      ensures r == if KeyOf(t) in old(table) then Err(UniqueViolation) else Ok(())
      ensures r.Err? ==> table == old(table)
      ensures r.Ok? ==>
                && table.Keys == old(table).Keys + {KeyOf(t)}
                && Stored(KeyOf(t), table[KeyOf(t)]) == t
                && table[KeyOf(t)].insertedAt == now && !table[KeyOf(t)].isLocked
      ensures forall k :: k in old(table) ==> k in table && table[k] == old(table)[k]
    {
      match Insert(table, t, now)
      case Ok(inserted) =>
        table := inserted;
        return Ok(());
      case Err(e) =>
        return Err(e);
    }

    /** The UPDATE locks every claimable row; the LIMIT on what it RETURNs applies afterwards. */
    method PollTransmissions(before: Time, batchSize: U32) returns (batch: seq<Transmission>, ghost rows: seq<Key>)
      modifies this
      ensures table == Lock(old(table), Claims(old(table), before))
      ensures IsSelection(rows, Claims(old(table), before), batchSize)
      ensures batch == StoredAll(old(table), rows)
    {
      var unread := Claims(table, before);
      table := Lock(table, unread);
      batch, rows := [], [];
      while unread != {} && |batch| < batchSize
        invariant |batch| <= batchSize && |rows| == |batch|
        invariant unread <= Claims(old(table), before)
        invariant |rows| + |unread| == |Claims(old(table), before)|
        invariant forall i :: 0 <= i < |rows| ==> rows[i] in Claims(old(table), before) && rows[i] !in unread
        invariant forall i, j :: 0 <= i < j < |rows| ==> rows[i] != rows[j]
        invariant batch == StoredAll(old(table), rows)
        decreases |unread|
      {
        var k :| k in unread;
        unread := unread - {k};
        batch := batch + [Stored(k, table[k])];
        rows := rows + [k];
      }
    }

    method Save(t: Transmission, now: Time) returns (r: Result<(), DatabaseError>)
      modifies this
      ensures match Insert(old(table), t, now)
              case Ok(table') => r.Ok? && table == table'
              case Err(e) => r == Err(e) && table == old(table)
    {
      r := StoreTransmission(t, now);
      assert r.Ok? ==> table == old(table)[KeyOf(t) := RowOf(t, now)];
    }

    method Reschedule(id: Id)
      modifies this
      ensures table == Lock(old(table), RescheduleTargets(old(table), id))
      ensures forall before :: Claims(table, before) <= Claims(old(table), before)
      ensures (forall k :: k in old(table) && k.id == id ==> old(table)[k].isLocked) ==> table == old(table)
    {
      ghost var before := table;
      table := Lock(table, RescheduleTargets(table, id));
      forall time ensures Claims(table, time) <= Claims(before, time) {
        RescheduleNeverReleases(before, id, time);
      }
    }
  }
}
