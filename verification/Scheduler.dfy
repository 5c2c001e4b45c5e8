/**
 Admission of triggers by the AI Supervisor: at most five sessions at a time, at most fifty waiting.
 A session that cannot be set up fails before its first suspension point, so `processTrigger` and
 `drainQueue` call each other; the invariants hold through that recursion.
 */
module Scheduler {
  datatype Trigger = Trigger(trigger: string, runId: string, tenantId: string, priority: int)

  const MAX_CONCURRENT := 5
  const MAX_QUEUE := 50

  class Supervisor {
    var activeSessions: nat
    var pendingQueue: seq<Trigger>

    /** Every accepted trigger, in order of acceptance; its position is its acceptance number. */
    ghost var accepted: seq<Trigger>
    /** The triggers whose sessions have started, in the order of starting. */
    ghost var started: seq<Trigger>
    /** The acceptance numbers of the sessions that run, and of those that have ended. */
    ghost var active: set<nat>
    ghost var finished: set<nat>

    constructor ()
      ensures Valid() && Settled() && accepted == [] && started == []
    {
      activeSessions, pendingQueue := 0, [];
      accepted, started, active, finished := [], [], {}, {};
    }

    /** Sessions start in the order of acceptance; each one started is either active or finished. */
    ghost predicate Consistent()
      reads this
    {
      && started <= accepted
      && activeSessions == |active|
      && active !! finished
      && (forall i :: i in active || i in finished <==> 0 <= i < |started|)
    }

    ghost predicate Valid()
      reads this
    {
      && Consistent()
      && activeSessions <= MAX_CONCURRENT
      && |pendingQueue| <= MAX_QUEUE
      && pendingQueue == accepted[|started|..]
    }

    /** Between events: nobody waits while a slot is free. */
    ghost predicate Settled()
      reads this
    {
      pendingQueue != [] ==> activeSessions == MAX_CONCURRENT
    }

    /** A trigger taken out of the queue but not started yet. */
    ghost predicate Starting(msg: Trigger)
      reads this
    {
      && Consistent()
      && activeSessions < MAX_CONCURRENT
      && |pendingQueue| <= MAX_QUEUE
      && |started| < |accepted| && accepted[|started|] == msg
      && pendingQueue == accepted[|started| + 1..]
    }

    /** The session of acceptance number `n` ends; its slot goes to the queue. */
    method Finish(ghost n: nat)
      requires Valid() && n in active
      modifies this
      ensures Valid() && Settled()
      ensures accepted == old(accepted) && n in finished && old(finished) <= finished
      ensures |pendingQueue| <= |old(pendingQueue)| && old(started) <= started
      decreases |pendingQueue|, 2
    {
      activeSessions := activeSessions - 1;
      active, finished := active - {n}, finished + {n};
      DrainQueue();
    }

    /** Starts a session. Its setup may throw, and then it has ended before this returns. */
    method ProcessTrigger(msg: Trigger) returns (threw: bool)
      requires Starting(msg)
      modifies this
      ensures Valid() && accepted == old(accepted) && old(finished) <= finished
      ensures |pendingQueue| <= |old(pendingQueue)| && old(started) + [msg] <= started
      ensures !threw ==> pendingQueue == old(pendingQueue) && started == old(started) + [msg] && |old(started)| in active
      ensures threw ==> Settled() && |old(started)| in finished
      decreases |pendingQueue|, 3
    {
      ghost var n := |started|;
      activeSessions := activeSessions + 1;
      active := active + {n};
      started := started + [msg];
      threw := *;
      if threw {
        Finish(n);
      }
    }

    method DrainQueue()
      requires Valid()
      modifies this
      ensures Valid() && Settled()
      ensures accepted == old(accepted) && old(finished) <= finished
      ensures |pendingQueue| <= |old(pendingQueue)| && old(started) <= started
      decreases |pendingQueue|, 1
    {
      while activeSessions < MAX_CONCURRENT && |pendingQueue| > 0
        invariant Valid() && accepted == old(accepted) && old(finished) <= finished
        invariant |pendingQueue| <= |old(pendingQueue)| && old(started) <= started
        decreases |pendingQueue|
      {
        var next := pendingQueue[0];
        pendingQueue := pendingQueue[1..];
        var _ := ProcessTrigger(next);
      }
    }

    /** A trigger arrives: start it, queue it, or refuse it when both are full. */
    method Arrive(msg: Trigger) returns (ok: bool)
      requires Valid() && Settled()
      modifies this
      ensures Valid() && Settled()
      ensures ok <==> !(old(activeSessions) == 5 && |old(pendingQueue)| == 50)
      ensures accepted == if ok then old(accepted) + [msg] else old(accepted)
      ensures old(started) <= started && old(finished) <= finished
      ensures ok && old(activeSessions) < MAX_CONCURRENT ==> old(started) + [msg] <= started
    {
      if activeSessions >= MAX_CONCURRENT && |pendingQueue| >= MAX_QUEUE {
        return false;
      }
      accepted := accepted + [msg];
      if activeSessions < MAX_CONCURRENT {
        var _ := ProcessTrigger(msg);
      } else {
        pendingQueue := pendingQueue + [msg];
      }
      return true;
    }

    /** At most five sessions run and at most fifty triggers wait, and between events nobody waits while a slot is free. */
    lemma Limits()
      requires Valid()
      ensures activeSessions <= 5 && |pendingQueue| <= 50 && activeSessions == |active|
      ensures Settled() && pendingQueue != [] ==> activeSessions == 5
    {
    }

    /** Every accepted trigger is exactly one of queued, active or finished. */
    lemma ExactlyOnePlace(i: nat)
      requires Valid() && i < |accepted|
      ensures var queued := |started| <= i;
              && (queued || i in active || i in finished)
              && !(queued && i in active) && !(queued && i in finished) && !(i in active && i in finished)
      ensures |started| <= i ==> pendingQueue[i - |started|] == accepted[i]
    {
    }
  }

  /** Every interleaving of arrivals and completions. */
  method AnyHistory(s: Supervisor)
    requires s.Valid() && s.Settled()
    modifies s
    ensures s.Valid() && s.Settled()
    ensures old(s.accepted) <= s.accepted && old(s.started) <= s.started
  {
    var steps: nat :| true;
    for i := 0 to steps
      invariant s.Valid() && s.Settled()
      invariant old(s.accepted) <= s.accepted && old(s.started) <= s.started
    {
      if * {
        var msg: Trigger := *;
        var _ := s.Arrive(msg);
      } else if s.activeSessions > 0 {
        ghost var n :| n in s.active;
        s.Finish(n);
      }
    }
  }
}
