/**
 What one in-memory batch does as a whole: the loop of sends and id-based
 overwrites, interleaved with other tasks storing transmissions, has the effect of
 one pass over the list as it was polled.
 */
module BatchEffect {
  import opened Wrappers
  import opened Model
  import opened InMemory
  import opened Scheduler

  function Advance(t: Transmission): Transmission {
    match t.Transmitted()
    case Ok(t') => t'
    case Err(_) => t
  }

  function Outcome(t: Transmission, now: Time, failing: set<Id>): Transmission {
    if Relevant(t, now) && t.id !in failing then Advance(t) else t
  }

  /** One pass over the list: the first `cap` due entries are attempted, the others stay. */
  function Served(s: seq<Transmission>, now: Time, failing: set<Id>, cap: nat): (r: seq<Transmission>)
    ensures |r| == |s|
  {
    if s == [] || cap == 0 then s
    else if Due(s[0], now) then [Outcome(s[0], now, failing)] + Served(s[1..], now, failing, cap - 1)
    else [s[0]] + Served(s[1..], now, failing, cap)
  }

  function AttemptsOf(queue: seq<Transmission>, now: Time, failing: set<Id>): (r: seq<Attempt>)
    ensures |r| == |queue|
  {
    if queue == [] then []
    else [AttemptOf(queue[0], now, queue[0].id !in failing)] + AttemptsOf(queue[1..], now, failing)
  }

  // ---- The filtered queue ----

  lemma {:induction false} RelevantMembers(ts: seq<Transmission>, now: Time)
    ensures forall t :: t in RelevantOf(ts, now) <==> t in ts && Relevant(t, now)
    ensures DistinctIds(ts) ==> DistinctIds(RelevantOf(ts, now))
  {
    if ts != [] {
      RelevantMembers(ts[1..], now);
      if DistinctIds(ts) {
        assert DistinctIds(ts[1..]);
        forall t | t in RelevantOf(ts[1..], now) ensures t.id != ts[0].id {
          assert t in ts[1..];
        }
      }
    }
  }

  lemma QueueMembers(s: seq<Transmission>, now: Time)
    requires DistinctIds(s)
    ensures DistinctIds(Queue(s, now))
    ensures forall t :: t in Queue(s, now) ==> t in s && Due(t, now) && Relevant(t, now)
  {
    PolledAreDueEntries(s, now, BATCH_SIZE);
    RelevantMembers(Poll(s, now, BATCH_SIZE), now);
  }

  // ---- From the loop to the pass ----

  /** The entries of `s` that are in `queue` and sent advance; the others stay. */
  function ServedBy(s: seq<Transmission>, queue: seq<Transmission>, failing: set<Id>): (r: seq<Transmission>)
    ensures |r| == |s|
  {
    seq(|s|, i requires 0 <= i < |s| => if s[i] in queue && s[i].id !in failing then Advance(s[i]) else s[i])
  }

  /** A queue that was polled from `s` in this batch. */
  predicate QueuedFrom(queue: seq<Transmission>, s: seq<Transmission>) {
    && DistinctIds(queue)
    && forall t :: t in queue ==> t in s && t.next.Some?
  }

  /** The store after one send: only the entry sent may have changed. */
  lemma OneSendStore(w: World, t: Transmission, now: Time, failing: set<Id>, pushed: seq<Transmission>)
    requires t in w.store && t.next.Some? && DistinctIds(w.store)
    requires forall p :: p in pushed ==> p.id != t.id
    ensures AfterOne(w, t, now, t.id !in failing, pushed).store == ServedBy(w.store, [t], failing) + pushed
  {
    var p :| 0 <= p < |w.store| && w.store[p] == t;
    assert forall i :: 0 <= i < |w.store| ==> (w.store[i].id == t.id <==> i == p);
    if t.id !in failing {
      OverwriteFrame(w.store, Advance(t), pushed);
      assert Overwrite(w.store, Advance(t)) == ServedBy(w.store, [t], failing);
    } else {
      assert w.store == ServedBy(w.store, [t], failing);
    }
  }

  /**
   One send keeps the rest of the queue exactly as it is stored, so that every
   later save overwrites the very snapshot that was polled.
   */
  lemma OneSendKeepsQueue(
      s: seq<Transmission>, queue: seq<Transmission>, failing: set<Id>, pushed: seq<Transmission>, later: seq<Transmission>)
    requires queue != [] && QueuedFrom(queue, s)
    requires DistinctIds(s + (pushed + later))
    ensures var s' := ServedBy(s, queue[..1], failing) + pushed;
            && QueuedFrom(queue[1..], s')
            && DistinctIds(s' + later)
  {
    var served := ServedBy(s, queue[..1], failing);
    var s' := served + pushed;
    DistinctAppend(s, pushed + later);
    assert forall i :: 0 <= i < |s| ==> served[i].id == s[i].id;
    assert s' + later == served + (pushed + later);
    forall x, y | x in served && y in pushed + later ensures x.id != y.id {
      var i :| 0 <= i < |s| && served[i] == x;
      assert s[i] in s;
    }
    DistinctAppend(served, pushed + later);
    forall t | t in queue[1..] ensures t in s' && t.next.Some? {
      assert t in queue;
      var j :| 0 <= j < |s| && s[j] == t;
      assert served[j] == t;
      assert s'[j] == t;
    }
  }

  /** Serving the rest of the queue after one send is serving the whole queue. */
  lemma OneSendThenRest(s: seq<Transmission>, queue: seq<Transmission>, failing: set<Id>, pushed: seq<Transmission>)
    requires queue != [] && QueuedFrom(queue, s) && DistinctIds(s + pushed)
    ensures ServedBy(ServedBy(s, queue[..1], failing) + pushed, queue[1..], failing)
            == ServedBy(s, queue, failing) + pushed
  {
    var h, rest := queue[0], queue[1..];
    DistinctAppend(s, pushed);
    assert forall t :: t in rest ==> t.id != h.id;
    assert forall t :: t in rest ==> t in queue;
    forall i | 0 <= i < |pushed| ensures pushed[i] !in rest {
      assert pushed[i] in pushed;
    }
    assert queue == [h] + rest;
    assert Advance(h) !in rest && h !in rest;
  }

  /** The three facts above, about the world after the first send of a queue. */
  lemma OneSend(w: World, queue: seq<Transmission>, tick: Tick, later: seq<Transmission>)
    requires queue != [] && QueuedFrom(queue, w.store)
    requires DistinctIds(w.store + (First(tick.arrivals) + later))
    ensures var w1 := AfterOne(w, queue[0], tick.now, queue[0].id !in tick.failing, First(tick.arrivals));
            && QueuedFrom(queue[1..], w1.store)
            && DistinctIds(w1.store + later)
            && ServedBy(w1.store, queue[1..], tick.failing)
               == ServedBy(w.store, queue, tick.failing) + First(tick.arrivals)
            && w1.attempts == w.attempts + [AttemptOf(queue[0], tick.now, queue[0].id !in tick.failing)]
  {
    var pushed := First(tick.arrivals);
    DistinctAppend(w.store, pushed + later);
    assert w.store + (pushed + later) == (w.store + pushed) + later;
    DistinctAppend(w.store + pushed, later);
    assert queue[..1] == [queue[0]];
    assert queue[0] in w.store;
    assert forall p :: p in pushed ==> p in pushed + later;
    OneSendStore(w, queue[0], tick.now, tick.failing, pushed);
    OneSendKeepsQueue(w.store, queue, tick.failing, pushed, later);
    OneSendThenRest(w.store, queue, tick.failing, pushed);
  }

  lemma {:induction false} LoopEffect(w: World, queue: seq<Transmission>, tick: Tick)
    requires QueuedFrom(queue, w.store)
    requires DistinctIds(w.store + Flatten(tick.arrivals))
    ensures var w' := AfterAll(w, queue, tick);
            && w'.store == ServedBy(w.store, queue, tick.failing) + Flatten(tick.arrivals)
            && w'.attempts == w.attempts + AttemptsOf(queue, tick.now, tick.failing)
    decreases queue
  {
    if queue == [] {
      assert ServedBy(w.store, queue, tick.failing) == w.store;
    } else {
      var later := Flatten(Rest(tick.arrivals));
      assert Flatten(tick.arrivals) == First(tick.arrivals) + later;
      OneSend(w, queue, tick, later);
      var w1 := AfterOne(w, queue[0], tick.now, queue[0].id !in tick.failing, First(tick.arrivals));
      var rest := tick.(arrivals := Rest(tick.arrivals));
      LoopEffect(w1, queue[1..], rest);
      assert AfterAll(w, queue, tick) == AfterAll(w1, queue[1..], rest);
      var attempt := AttemptOf(queue[0], tick.now, queue[0].id !in tick.failing);
      assert AttemptsOf(queue, tick.now, tick.failing) == [attempt] + AttemptsOf(queue[1..], tick.now, tick.failing);
    }
  }

  lemma {:induction false} ServedByIsServed(s: seq<Transmission>, now: Time, failing: set<Id>, cap: nat)
    requires DistinctIds(s)
    ensures ServedBy(s, RelevantOf(Poll(s, now, cap), now), failing) == Served(s, now, failing, cap)
  {
    var polled := Poll(s, now, cap);
    RelevantMembers(polled, now);
    if s != [] && cap > 0 {
      var cap' := if Due(s[0], now) then cap - 1 else cap;
      var polled' := Poll(s[1..], now, cap');
      ServedByIsServed(s[1..], now, failing, cap');
      RelevantMembers(polled', now);
      PolledAreDueEntries(s[1..], now, cap');
      assert s[0] !in s[1..];
      var whole := ServedBy(s, RelevantOf(polled, now), failing);
      var tail := ServedBy(s[1..], RelevantOf(polled', now), failing);
      forall i | 1 <= i < |s| ensures whole[i] == tail[i - 1] {
        assert s[i] == s[1..][i - 1];
        assert s[i] in polled <==> s[i] in polled';
      }
      assert whole == [whole[0]] + tail;
    } else {
      assert ServedBy(s, [], failing) == s;
    }
  }

  /**
   A whole batch: the polled list after one pass, then everything other tasks
   stored meanwhile; and one attempt per queued entry, in order.
   */
  lemma BatchIsOnePass(w: World, tick: Tick)
    requires DistinctIds(w.store + Flatten(tick.arrivals))
    ensures var w' := AfterBatch(w, tick);
            && w'.store == Served(w.store, tick.now, tick.failing, BATCH_SIZE) + Flatten(tick.arrivals)
            && Served(w.store, tick.now, tick.failing, BATCH_SIZE)
               == ServedBy(w.store, Queue(w.store, tick.now), tick.failing)
            && w'.attempts == w.attempts + AttemptsOf(Queue(w.store, tick.now), tick.now, tick.failing)
  {
    var s := w.store;
    assert forall i :: 0 <= i < |s| ==> s[i] == (s + Flatten(tick.arrivals))[i];
    QueueMembers(s, tick.now);
    LoopEffect(w.(metrics := w.metrics.Count(Polled(true))), Queue(s, tick.now), tick);
    ServedByIsServed(s, tick.now, tick.failing, BATCH_SIZE);
  }

  // ---- Properties of the pass ----

  /** Ids, schedules, messages and positions never change, and counts advance by at most one. */
  lemma {:induction false} ServedFrame(s: seq<Transmission>, now: Time, failing: set<Id>, cap: nat)
    ensures var r := Served(s, now, failing, cap);
            forall i :: 0 <= i < |s| ==> r[i] == s[i] || r[i] == Outcome(s[i], now, failing)
  {
    if s != [] && cap > 0 {
      ServedFrame(s[1..], now, failing, if Due(s[0], now) then cap - 1 else cap);
    }
  }

  /** The pass treats a prefix on its own, and the rest with what is left of the cap. */
  lemma {:induction false} ServedAppend(a: seq<Transmission>, b: seq<Transmission>, now: Time, failing: set<Id>, cap: nat)
    ensures |Poll(a, now, cap)| <= cap
    ensures Served(a + b, now, failing, cap)
            == Served(a, now, failing, cap) + Served(b, now, failing, cap - |Poll(a, now, cap)|)
  {
    if a == [] {
      assert a + b == b;
    } else if cap > 0 {
      assert (a + b)[0] == a[0] && (a + b)[1..] == a[1..] + b;
      ServedAppend(a[1..], b, now, failing, if Due(a[0], now) then cap - 1 else cap);
    }
  }
}
