/**
 What can happen next in the Postgres protocol: no worker is ever stuck, and every fault
 of the model can strike at every point where the scheduler waits for a reply.
 */
module ProtocolProgress {
  import opened Model
  import opened Postgres
  import opened Protocol
  import Scheduler

  /** Whatever a poll claims, there is a selection for it to return. */
  lemma {:induction false} SelectionExists(claimed: set<Key>, limit: nat)
    ensures exists rows :: IsSelection(rows, claimed, limit)
    decreases limit
  {
    if claimed == {} || limit == 0 {
      assert IsSelection([], claimed, limit);
    } else {
      var k :| k in claimed;
      SelectionExists(claimed - {k}, limit - 1);
      var rows :| IsSelection(rows, claimed - {k}, limit - 1);
      assert IsSelection([k] + rows, claimed, limit);
    }
  }

  predicate Ready(worker: Worker) {
    worker.Working? && worker.queue == []
  }

  /**
   In any state and for any clock reading, a ready worker can poll, and a busy one can
   take its next step; the statement can fail, or commit with its reply lost, a send can
   go either way, and any worker can crash.
   */
  lemma {:induction false} EveryOutcomeIsPossible(s: System, w: WorkerId, at: Time, outcome: Outcome, ok: bool)
    ensures Ready(s.Worker(w)) ==> (exists rows :: Enabled(s, Poll(w, at, rows))) && Enabled(s, PollFails(w, at, ok))
    ensures s.Worker(w).Working? && !Ready(s.Worker(w)) ==> Enabled(s, Send(w, ok))
    ensures s.Worker(w).Sent? ==> Enabled(s, Save(w, at, outcome))
    ensures s.Worker(w).Refused? ==> Enabled(s, Reschedule(w, outcome))
    ensures Enabled(s, Crash(w))
  {
    if Ready(s.Worker(w)) {
      SelectionExists(Claims(s.table, at), Scheduler.BATCH_SIZE);
      var rows :| IsSelection(rows, Claims(s.table, at), Scheduler.BATCH_SIZE);
      assert Enabled(s, Poll(w, at, rows));
    }
  }

  /** A new transmission with a fresh id can be stored at any time, with any outcome. */
  lemma {:induction false} StoringIsPossible(
      s: System, id: Id, schedule: Schedule, message: Message, at: Time, outcome: Outcome)
    ensures Enabled(s, Store(NewTransmission(id, schedule, message), at, outcome))
            <==> forall k :: k in s.table ==> k.id != id
  {
  }

  /** Besides storing and crashing, only the step of the phase that its worker is in can happen. */
  lemma {:induction false} StepsFollowPhases(s: System, step: Step)
    requires Enabled(s, step) && !step.Store? && !step.Crash?
    ensures step.Poll? || step.PollFails? <==> Ready(s.Worker(step.w))
    ensures step.Send? <==> s.Worker(step.w).Working? && !Ready(s.Worker(step.w))
    ensures step.Save? <==> s.Worker(step.w).Sent?
    ensures step.Reschedule? <==> s.Worker(step.w).Refused?
  {
  }
}
