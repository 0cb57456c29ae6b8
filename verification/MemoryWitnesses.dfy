/** A run of the in-memory scheduler, on accepted requests only, that starves a due entry. */
module MemoryWitnesses {
  import opened Model
  import opened InMemory
  import opened Scheduler
  import opened MemorySafety
  import opened MemoryProgress

  function PlannedEmpty(id: Id, message: Message): Transmission {
    NewTransmission(id, Interval(0, SECOND, Times(0)), message)
  }

  function Prompt(message: Message): Transmission {
    NewTransmission(BATCH_SIZE, Delayed(0), message)
  }

  /** One hundred intervals planned Times(0), then one transmission that is due at once. */
  function Requests(message: Message): seq<Transmission> {
    seq(BATCH_SIZE as int, i requires 0 <= i < BATCH_SIZE => PlannedEmpty(i, message)) + [Prompt(message)]
  }

  function Storing(message: Message): Tick {
    Tick(0, {}, [Requests(message)])
  }

  lemma {:induction false} AllDueDuds(s: seq<Transmission>, now: Time)
    requires forall t :: t in s ==> IsDud(t) && Due(t, now)
    ensures DueDuds(s, now) == |s|
  {
    if s != [] {
      AllDueDuds(s[1..], now);
    }
  }

  lemma StoringStores(message: Message)
    ensures ValidTick(INITIAL, Storing(message))
    ensures AfterBatch(INITIAL, Storing(message)).store == Requests(message)
    ensures AfterBatch(INITIAL, Storing(message)).attempts == []
  {
    assert Flatten([Requests(message)]) == Requests(message);
    assert INITIAL.store + Requests(message) == Requests(message);
  }

  lemma PlannedEmptyIsDud(id: Id, message: Message)
    ensures IsDud(PlannedEmpty(id, message)) && Due(PlannedEmpty(id, message), 0)
    ensures ValidateSchedule(0, PlannedEmpty(id, message).schedule, SECOND).Ok?
  {
    NewIsConsistent(id, PlannedEmpty(id, message).schedule, message);
  }

  lemma RequestsBlock(message: Message)
    ensures DueDuds(Requests(message)[..BATCH_SIZE], 0) == BATCH_SIZE
    ensures Requests(message)[BATCH_SIZE] == Prompt(message)
    ensures forall t :: t in Requests(message) ==> ValidateSchedule(0, t.schedule, SECOND).Ok?
  {
    var all, ahead := Requests(message), Requests(message)[..BATCH_SIZE];
    forall t | t in ahead
      ensures IsDud(t) && Due(t, 0) && ValidateSchedule(0, t.schedule, SECOND).Ok?
    {
      var i :| 0 <= i < |ahead| && ahead[i] == t;
      assert t == PlannedEmpty(i, message);
      PlannedEmptyIsDud(i, message);
    }
    AllDueDuds(ahead, 0);
    assert all == ahead + [Prompt(message)];
  }

  /**
   Starvation is reachable: all 101 schedules are accepted and stored, the last of them is
   due at once, and in no run that follows, however long, is it ever attempted.
   */
  lemma {:induction false} PromptRequestIsNeverSent(message: Message, later: seq<Tick>)
    requires var w := AfterBatch(INITIAL, Storing(message));
             ValidRun(w, later) && forall i :: 0 <= i < |later| ==> 0 <= later[i].now
    ensures var w := AfterBatch(INITIAL, Storing(message));
            && ValidTick(INITIAL, Storing(message))
            && w.store == Requests(message) && Due(Prompt(message), 0)
            && (forall t :: t in w.store ==> ValidateSchedule(0, t.schedule, SECOND).Ok?)
            && forall a :: a in AfterRun(w, later).attempts ==> a.id != Prompt(message).id
  {
    var w := AfterBatch(INITIAL, Storing(message));
    StoringStores(message);
    RequestsBlock(message);
    BatchKeepsInv(INITIAL, Storing(message));
    StarvedIsNotSent(w, later, BATCH_SIZE, 0);
    AttemptsInRun(w, later);
  }
}
