/**
 The in-memory repository of src/repository_in_memory.rs: a list, polled in
 insertion order and overwritten in place.
 */
module InMemory {
  import opened Model

  // ---- The operations as functions on the list ----

  predicate Due(t: Transmission, before: Time) {
    t.next.Some? && t.next.value <= before
  }

  /** The first `cap` due entries, in insertion order. */
  function Poll(s: seq<Transmission>, before: Time, cap: nat): seq<Transmission> {
    if s == [] || cap == 0 then []
    else if Due(s[0], before) then [s[0]] + Poll(s[1..], before, cap - 1)
    else Poll(s[1..], before, cap)
  }

  /** Every entry with the id of `t` replaced by `t`. */
  function Overwrite(s: seq<Transmission>, t: Transmission): (r: seq<Transmission>)
    ensures |r| == |s|
  {
    seq(|s|, i requires 0 <= i < |s| => if s[i].id == t.id then t else s[i])
  }

  predicate DistinctIds(s: seq<Transmission>) {
    forall i, j :: 0 <= i < j < |s| ==> s[i].id != s[j].id
  }

  class RepositoryInMemory {
    var transmissions: seq<Transmission>

    constructor ()
      ensures transmissions == []
    {
      transmissions := [];
    }

    method StoreTransmission(t: Transmission)
      modifies this
      ensures transmissions == old(transmissions) + [t]
    {
      transmissions := transmissions + [t];
    }

    method PollTransmissions(before: Time, batchSize: U32) returns (batch: seq<Transmission>)
      ensures batch == Poll(transmissions, before, batchSize)
      ensures var due := DueOf(transmissions, before);
              batch == due[..if batchSize < |due| then batchSize else |due|]
    {
      batch := [];
      var i := 0;
      while i < |transmissions| && |batch| < batchSize
        invariant i <= |transmissions| && |batch| <= batchSize
        invariant batch + Poll(transmissions[i..], before, batchSize - |batch|)
                  == Poll(transmissions, before, batchSize)
      {
        assert transmissions[i..][1..] == transmissions[i + 1..];
        if Due(transmissions[i], before) {
          batch := batch + [transmissions[i]];
        }
        i := i + 1;
      }
      PollIsDuePrefix(transmissions, before, batchSize);
    }

    method Save(t: Transmission)
      modifies this
      ensures transmissions == Overwrite(old(transmissions), t)
    {
      var i := 0;
      while i < |transmissions|
        invariant i <= |transmissions| == |old(transmissions)|
        invariant transmissions[..i] == Overwrite(old(transmissions), t)[..i]
        invariant transmissions[i..] == old(transmissions)[i..]
      {
        assert transmissions[i] == old(transmissions)[i];
        if transmissions[i].id == t.id {
          transmissions := transmissions[i := t];
        }
        i := i + 1;
      }
    }

    /** An unsent entry was never changed, so there is nothing to undo. */
    method Reschedule(id: Id)
      ensures unchanged(this)
    {
    }
  }

  // ---- Polling ----

  /** The due entries in insertion order. */
  function DueOf(s: seq<Transmission>, before: Time): (r: seq<Transmission>)
    ensures |r| <= |s|
  {
    if s == [] then []
    else (if Due(s[0], before) then [s[0]] else []) + DueOf(s[1..], before)
  }

  /** A poll is the prefix, of at most `cap`, of the due entries. */
  lemma {:induction false} PollIsDuePrefix(s: seq<Transmission>, before: Time, cap: nat)
    ensures Poll(s, before, cap) == DueOf(s, before)[..if cap < |DueOf(s, before)| then cap else |DueOf(s, before)|]
  {
    if s != [] && cap > 0 {
      PollIsDuePrefix(s[1..], before, if Due(s[0], before) then cap - 1 else cap);
    }
  }

  /** Polling a concatenation: the second part gets what the first leaves of the cap. */
  lemma {:induction false} PollAppend(a: seq<Transmission>, b: seq<Transmission>, before: Time, cap: nat)
    ensures |Poll(a, before, cap)| <= cap
    ensures Poll(a + b, before, cap) == Poll(a, before, cap) + Poll(b, before, cap - |Poll(a, before, cap)|)
  {
    if a == [] {
      assert a + b == b;
    } else if cap > 0 {
      assert (a + b)[1..] == a[1..] + b;
      PollAppend(a[1..], b, before, if Due(a[0], before) then cap - 1 else cap);
    }
  }

  lemma {:induction false} PolledAreDueEntries(s: seq<Transmission>, before: Time, cap: nat)
    ensures forall t :: t in Poll(s, before, cap) ==> t in s && Due(t, before)
    ensures DistinctIds(s) ==> DistinctIds(Poll(s, before, cap))
  {
    if s != [] && cap > 0 {
      var left := if Due(s[0], before) then cap - 1 else cap;
      PolledAreDueEntries(s[1..], before, left);
      if DistinctIds(s) {
        assert DistinctIds(s[1..]);
        forall t | t in Poll(s[1..], before, left) ensures t.id != s[0].id {
          assert t in s[1..];
        }
      }
    }
  }

  /**
   Which entries a poll selects: the due ones with fewer than `cap` due entries
   stored before them.
   */
  lemma {:induction false} PollSelects(s: seq<Transmission>, before: Time, cap: nat, i: nat)
    requires DistinctIds(s) && i < |s|
    ensures s[i] in Poll(s, before, cap) <==> Due(s[i], before) && |DueOf(s[..i], before)| < cap
  {
    var a, b := s[..i], s[i + 1..];
    assert s == a + ([s[i]] + b);
    PollAppend(a, [s[i]] + b, before, cap);
    PollIsDuePrefix(a, before, cap);
    PolledAreDueEntries(a, before, cap);
    PolledAreDueEntries(b, before, cap);
    assert s[i] !in a;
    assert s[i] !in b;
    var left := cap - |Poll(a, before, cap)|;
    PolledAreDueEntries(b, before, if left == 0 then 0 else if Due(s[i], before) then left - 1 else left);
    assert ([s[i]] + b)[1..] == b;
  }

  lemma DistinctAppend(a: seq<Transmission>, b: seq<Transmission>)
    ensures DistinctIds(a + b)
            <==> DistinctIds(a) && DistinctIds(b) && forall x, y :: x in a && y in b ==> x.id != y.id
  {
    var ab := a + b;
    if DistinctIds(ab) {
      assert forall i :: 0 <= i < |a| ==> a[i] == ab[i];
      assert forall j :: 0 <= j < |b| ==> b[j] == ab[|a| + j];
      forall x, y | x in a && y in b ensures x.id != y.id {
        var i :| 0 <= i < |a| && a[i] == x;
        var j :| 0 <= j < |b| && b[j] == y;
        assert ab[i].id != ab[|a| + j].id;
      }
    }
  }

  // ---- Overwriting ----

  /**
   Saving changes only entries with the saved id, keeps length, order and
   distinctness, and commutes with appending entries of other ids.
   */
  lemma OverwriteFrame(s: seq<Transmission>, t: Transmission, pushed: seq<Transmission>)
    requires forall p :: p in pushed ==> p.id != t.id
    ensures forall i :: 0 <= i < |s| ==>
              Overwrite(s, t)[i].id == s[i].id && (s[i].id != t.id ==> Overwrite(s, t)[i] == s[i])
    ensures DistinctIds(s) ==> DistinctIds(Overwrite(s, t))
    ensures Overwrite(s + pushed, t) == Overwrite(s, t) + pushed
  {
    assert forall i :: |s| <= i < |s + pushed| ==> (s + pushed)[i] in pushed;
  }
}
