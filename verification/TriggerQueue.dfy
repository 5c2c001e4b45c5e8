/**
 The bounded trigger queue with per-run deduplication. Main results, over every trace of enqueues and
 dequeues with a clock that never goes back: cleaning up the dedup map is invisible, accepted
 triggers of one run within the window fall strictly in priority number, and messages leave in the
 order they were accepted.
 */
module TriggerQueue {
  import opened Wrappers

  datatype Message = Message(trigger: string, runId: string, tenantId: string, priority: int, enqueuedAt: string)

  datatype Entry = Entry(priority: int, timestamp: int)

  const DEFAULT_CAPACITY := 100
  const DEDUP_WINDOW_MS := 60_000
  const CLEANUP_PERIOD := 50

  datatype State = State(queue: seq<Message>, dedup: map<string, Entry>)

  const EMPTY := State([], map[])

  predicate Fresh(e: Entry, now: int) {
    now - e.timestamp < DEDUP_WINDOW_MS
  }

  /** A recent trigger of the same run with an equal or higher priority suppresses this one. */
  predicate Suppressed(dedup: map<string, Entry>, m: Message, now: int) {
    m.runId in dedup && Fresh(dedup[m.runId], now) && m.priority >= dedup[m.runId].priority
  }

  function CleanedUp(dedup: map<string, Entry>, now: int): map<string, Entry> {
    map k | k in dedup && Fresh(dedup[k], now) :: dedup[k]
  }

  predicate Accepts(capacity: nat, s: State, m: Message, now: int) {
    !Suppressed(s.dedup, m, now) && |s.queue| < capacity
  }

  /** `cleanup` selects the queue as written (true) or one that never cleans up (false). */
  function Enqueued(capacity: nat, s: State, m: Message, now: int, cleanup: bool): State {
    if !Accepts(capacity, s, m, now) then s
    else
      var queue := s.queue + [m];
      var dedup := s.dedup[m.runId := Entry(m.priority, now)];
      State(queue, if cleanup && |queue| % 50 == 0 then CleanedUp(dedup, now) else dedup)
  }

  class Queue {
    const capacity: nat
    var queue: seq<Message>
    var dedup: map<string, Entry>

    constructor (capacity: nat := DEFAULT_CAPACITY)
      ensures this.capacity == capacity && Current() == EMPTY
    {
      this.capacity := capacity;
      queue, dedup := [], map[];
    }

    ghost function Current(): State
      reads this
    {
      State(queue, dedup)
    }

    method Enqueue(m: Message, now: int) returns (accepted: bool)
      modifies this
      ensures accepted == Accepts(capacity, old(Current()), m, now)
      ensures Current() == Enqueued(capacity, old(Current()), m, now, true)
    {
      if m.runId in dedup && now - dedup[m.runId].timestamp < DEDUP_WINDOW_MS {
        if m.priority >= dedup[m.runId].priority {
          return false;
        }
      }
      if |queue| >= capacity {
        return false;
      }
      queue := queue + [m];
      dedup := dedup[m.runId := Entry(m.priority, now)];
      if |queue| % CLEANUP_PERIOD == 0 {
        CleanupDedup(now);
      }
      return true;
    }

    method Dequeue() returns (m: Option<Message>)
      modifies this`queue
      ensures m == if old(queue) == [] then None else Some(old(queue)[0])
      ensures queue == if old(queue) == [] then [] else old(queue)[1..]
    {
      if queue == [] {
        return None;
      }
      m := Some(queue[0]);
      queue := queue[1..];
    }

    /** Walks over the map and deletes expired entries. */
    method CleanupDedup(now: int)
      modifies this`dedup
      ensures dedup == CleanedUp(old(dedup), now)
    {
      var todo := dedup.Keys;
      while todo != {}
        invariant todo <= old(dedup).Keys
        invariant forall k :: k in dedup <==> k in old(dedup) && (k in todo || Fresh(old(dedup)[k], now))
        invariant forall k :: k in dedup ==> dedup[k] == old(dedup)[k]
        decreases todo
      {
        var key :| key in todo;
        todo := todo - {key};
        if now - dedup[key].timestamp >= DEDUP_WINDOW_MS {
          dedup := dedup - {key};
        }
      }
    }
  }

  // ---------------------------------------------------------------------
  // Traces
  // ---------------------------------------------------------------------

  datatype Op = Enq(message: Message, now: int) | Deq

  datatype Output = Accepted(ok: bool) | Dequeued(message: Option<Message>)

  function Step(capacity: nat, s: State, op: Op, cleanup: bool): (State, Output) {
    match op
    case Enq(m, now) => (Enqueued(capacity, s, m, now, cleanup), Accepted(Accepts(capacity, s, m, now)))
    case Deq =>
      if s.queue == [] then (s, Dequeued(None)) else (s.(queue := s.queue[1..]), Dequeued(Some(s.queue[0])))
  }

  function After(capacity: nat, ops: seq<Op>, cleanup: bool): State {
    if ops == [] then EMPTY else Step(capacity, After(capacity, Front(ops), cleanup), Last(ops), cleanup).0
  }

  function Answer(capacity: nat, ops: seq<Op>, cleanup: bool): Output
    requires ops != []
  {
    Step(capacity, After(capacity, Front(ops), cleanup), Last(ops), cleanup).1
  }

  ghost predicate Clocked(ops: seq<Op>) {
    forall i, j :: 0 <= i < j < |ops| && ops[i].Enq? && ops[j].Enq? ==> ops[i].now <= ops[j].now
  }

  /** No enqueue of the trace is later than `now`. */
  ghost predicate NotAfter(ops: seq<Op>, now: int) {
    forall i :: 0 <= i < |ops| && ops[i].Enq? ==> ops[i].now <= now
  }

  lemma ClockedFront(ops: seq<Op>)
    requires ops != [] && Clocked(ops)
    ensures Clocked(Front(ops)) && (Last(ops).Enq? ==> NotAfter(Front(ops), Last(ops).now))
  {
  }

  // ---------------------------------------------------------------------
  // Cleanup is invisible
  // ---------------------------------------------------------------------

  /** The cleaned map lacks only entries that have expired by `now`. */
  ghost predicate Covers(clean: map<string, Entry>, full: map<string, Entry>, now: int) {
    && (forall k :: k in clean ==> k in full && clean[k] == full[k])
    && (forall k :: k in full && k !in clean ==> !Fresh(full[k], now))
  }

  lemma CoversLater(clean: map<string, Entry>, full: map<string, Entry>, now: int, later: int)
    requires Covers(clean, full, now) && now <= later
    ensures Covers(clean, full, later)
  {
  }

  lemma CoveredAccepts(capacity: nat, clean: State, full: State, m: Message, now: int)
    requires clean.queue == full.queue && Covers(clean.dedup, full.dedup, now)
    ensures Accepts(capacity, clean, m, now) == Accepts(capacity, full, m, now)
  {
  }

  lemma EnqueueCovers(capacity: nat, clean: State, full: State, m: Message, now: int)
    requires clean.queue == full.queue && Covers(clean.dedup, full.dedup, now)
    ensures var c, f := Enqueued(capacity, clean, m, now, true), Enqueued(capacity, full, m, now, false);
            c.queue == f.queue && Covers(c.dedup, f.dedup, now)
  {
    CoveredAccepts(capacity, clean, full, m, now);
  }

  /** A time by which every entry of the trace has been made. */
  ghost predicate CoversAt(capacity: nat, ops: seq<Op>, now: int) {
    Covers(After(capacity, ops, true).dedup, After(capacity, ops, false).dedup, now)
  }

  lemma {:induction false} CleanupSimulation(capacity: nat, ops: seq<Op>, now: int)
    requires Clocked(ops) && NotAfter(ops, now)
    ensures After(capacity, ops, true).queue == After(capacity, ops, false).queue
    ensures CoversAt(capacity, ops, now)
    decreases |ops|
  {
    hide Enqueued;
    if ops != [] {
      ClockedFront(ops);
      var op, before := Last(ops), Front(ops);
      if op.Enq? {
        CleanupSimulation(capacity, before, op.now);
        EnqueueCovers(capacity, After(capacity, before, true), After(capacity, before, false), op.message, op.now);
        CoversLater(After(capacity, ops, true).dedup, After(capacity, ops, false).dedup, op.now, now);
      } else {
        CleanupSimulation(capacity, before, now);
      }
    }
  }

  /** The queue with periodic cleanup answers every operation as one that never cleans up. */
  lemma CleanupIsInvisible(capacity: nat, ops: seq<Op>)
    requires ops != [] && Clocked(ops)
    ensures Answer(capacity, ops, true) == Answer(capacity, ops, false)
  {
    hide Enqueued, Accepts;
    ClockedFront(ops);
    var before, op := Front(ops), Last(ops);
    if op.Enq? {
      CleanupSimulation(capacity, before, op.now);
      CoveredAccepts(capacity, After(capacity, before, true), After(capacity, before, false), op.message, op.now);
    } else {
      var now := LatestTime(before);
      CleanupSimulation(capacity, before, now);
    }
  }

  lemma {:induction false} LatestTime(ops: seq<Op>) returns (now: int)
    ensures NotAfter(ops, now)
  {
    if ops == [] {
      now := 0;
    } else {
      now := LatestTime(Front(ops));
      if Last(ops).Enq? && Last(ops).now > now {
        now := Last(ops).now;
      }
    }
  }

  // ---------------------------------------------------------------------
  // Accepted triggers
  // ---------------------------------------------------------------------

  predicate WasAccepted(capacity: nat, ops: seq<Op>) {
    ops != [] && Last(ops).Enq? && Answer(capacity, ops, true) == Accepted(true)
  }

  /** The enqueues that succeeded, in order. */
  function AcceptedOps(capacity: nat, ops: seq<Op>): seq<Op> {
    if ops == [] then []
    else AcceptedOps(capacity, Front(ops)) + (if WasAccepted(capacity, ops) then [Last(ops)] else [])
  }

  function Messages(ops: seq<Op>): seq<Message> {
    if ops == [] then []
    else Messages(Front(ops)) + (if Last(ops).Enq? then [Last(ops).message] else [])
  }

  function DequeuedMessages(capacity: nat, ops: seq<Op>): seq<Message> {
    if ops == [] then []
    else
      DequeuedMessages(capacity, Front(ops))
      + (match Answer(capacity, ops, true) case Dequeued(Some(m)) => [m] case _ => [])
  }

  lemma MessagesAppend(ops: seq<Op>, op: Op)
    ensures Messages(ops + [op]) == Messages(ops) + (if op.Enq? then [op.message] else [])
  {
    assert Front(ops + [op]) == ops && Last(ops + [op]) == op;
  }

  /** What one more operation does to the queue and to the two histories. */
  lemma FifoStep(capacity: nat, ops: seq<Op>)
    requires ops != []
    ensures var q, q' := After(capacity, Front(ops), true).queue, After(capacity, ops, true).queue;
            var d, d' := DequeuedMessages(capacity, Front(ops)), DequeuedMessages(capacity, ops);
            var a, a' := Messages(AcceptedOps(capacity, Front(ops))), Messages(AcceptedOps(capacity, ops));
            if WasAccepted(capacity, ops) then
              |q| < capacity && q' == q + [Last(ops).message] && d' == d && a' == a + [Last(ops).message]
            else
              a' == a && (if Last(ops).Deq? && q != [] then q' == q[1..] && d' == d + [q[0]] else q' == q && d' == d)
  {
    hide Suppressed, CleanedUp, Messages;
    MessagesAppend(AcceptedOps(capacity, Front(ops)), Last(ops));
    assert DequeuedMessages(capacity, Front(ops)) + [] == DequeuedMessages(capacity, Front(ops));
    assert AcceptedOps(capacity, Front(ops)) + [] == AcceptedOps(capacity, Front(ops));
  }

  /** Conservation and FIFO: what has left, followed by what is queued, is what was accepted. */
  lemma {:induction false} QueueIsFifo(capacity: nat, ops: seq<Op>)
    ensures DequeuedMessages(capacity, ops) + After(capacity, ops, true).queue == Messages(AcceptedOps(capacity, ops))
    ensures |After(capacity, ops, true).queue| <= capacity
    decreases |ops|
  {
    if ops != [] {
      hide After, DequeuedMessages, Messages, AcceptedOps, WasAccepted;
      QueueIsFifo(capacity, Front(ops));
      FifoStep(capacity, ops);
      var q, d := After(capacity, Front(ops), true).queue, DequeuedMessages(capacity, Front(ops));
      if Last(ops).Deq? && q != [] {
        assert d + q == (d + [q[0]]) + q[1..];
      } else if Last(ops).Enq? {
        assert d + (q + [Last(ops).message]) == (d + q) + [Last(ops).message];
      }
    }
  }

  /** In the map that is never cleaned, a run's entry is its latest accepted trigger. */
  ghost predicate LatestEntry(dedup: map<string, Entry>, accepted: seq<Op>, runId: string) {
    && (runId in dedup ==>
          exists k :: 0 <= k < |accepted| && IsLatest(accepted, k, runId)
                      && dedup[runId] == Entry(accepted[k].message.priority, accepted[k].now))
    && (runId !in dedup ==> forall k :: 0 <= k < |accepted| ==> !OfRun(accepted[k], runId))
  }

  predicate OfRun(op: Op, runId: string) {
    op.Enq? && op.message.runId == runId
  }

  ghost predicate IsLatest(accepted: seq<Op>, k: nat, runId: string) {
    k < |accepted| && OfRun(accepted[k], runId) && forall j :: k < j < |accepted| ==> !OfRun(accepted[j], runId)
  }

  lemma LatestAfterAppend(dedup: map<string, Entry>, accepted: seq<Op>, op: Op, runId: string)
    requires op.Enq? && LatestEntry(dedup, accepted, runId)
    ensures LatestEntry(dedup[op.message.runId := Entry(op.message.priority, op.now)], accepted + [op], runId)
  {
    var all := accepted + [op];
    if op.message.runId == runId {
      assert IsLatest(all, |accepted|, runId);
    } else if runId in dedup {
      var k :| 0 <= k < |accepted| && IsLatest(accepted, k, runId)
               && dedup[runId] == Entry(accepted[k].message.priority, accepted[k].now);
      assert IsLatest(all, k, runId);
    }
  }

  lemma {:induction false} EntriesAreLatest(capacity: nat, ops: seq<Op>, runId: string)
    requires Clocked(ops)
    ensures LatestEntry(After(capacity, ops, false).dedup, AcceptedOps(capacity, ops), runId)
    decreases |ops|
  {
    hide LatestEntry, Accepts;
    if ops != [] {
      ClockedFront(ops);
      EntriesAreLatest(capacity, Front(ops), runId);
      CleanupIsInvisible(capacity, ops);
      if WasAccepted(capacity, ops) {
        LatestAfterAppend(After(capacity, Front(ops), false).dedup, AcceptedOps(capacity, Front(ops)), Last(ops), runId);
      } else {
        assert AcceptedOps(capacity, ops) == AcceptedOps(capacity, Front(ops));
      }
    } else {
      NoEntriesYet(runId);
    }
  }

  lemma NoEntriesYet(runId: string)
    ensures LatestEntry(map[], [], runId)
  {
  }

  ghost predicate Falling(accepted: seq<Op>) {
    forall i, j :: 0 <= i < j < |accepted| && accepted[i].Enq? && accepted[j].Enq?
                   && accepted[i].message.runId == accepted[j].message.runId
                   && accepted[j].now - accepted[i].now < DEDUP_WINDOW_MS
                   ==> accepted[j].message.priority < accepted[i].message.priority
  }

  ghost predicate Timed(accepted: seq<Op>, now: int) {
    && (forall i :: 0 <= i < |accepted| ==> accepted[i].Enq? && accepted[i].now <= now)
    && (forall i, j :: 0 <= i < j < |accepted| ==> accepted[i].now <= accepted[j].now)
  }

  lemma {:induction false} AcceptedAreTimed(capacity: nat, ops: seq<Op>, now: int)
    requires Clocked(ops) && NotAfter(ops, now)
    ensures Timed(AcceptedOps(capacity, ops), now)
    decreases |ops|
  {
    hide WasAccepted;
    if ops != [] {
      ClockedFront(ops);
      var op := Last(ops);
      assert NotAfter(Front(ops), now);
      AcceptedAreTimed(capacity, Front(ops), now);
      if op.Enq? {
        AcceptedAreTimed(capacity, Front(ops), op.now);
      }
      if WasAccepted(capacity, ops) {
        AcceptedAreEnqueues(capacity, ops);
      }
    }
  }

  lemma AcceptedAreEnqueues(capacity: nat, ops: seq<Op>)
    requires WasAccepted(capacity, ops)
    ensures ops != [] && Last(ops).Enq?
  {
  }

  lemma FallingAppend(accepted: seq<Op>, op: Op, k: nat)
    requires op.Enq? && Falling(accepted) && Timed(accepted, op.now)
    requires IsLatest(accepted, k, op.message.runId)
    requires op.now - accepted[k].now < DEDUP_WINDOW_MS ==> op.message.priority < accepted[k].message.priority
    ensures Falling(accepted + [op])
  {
    forall i | 0 <= i < |accepted| && accepted[i].message.runId == op.message.runId && op.now - accepted[i].now < DEDUP_WINDOW_MS
      ensures op.message.priority < accepted[i].message.priority
    {
      assert OfRun(accepted[i], op.message.runId);
      assert i <= k;
    }
  }

  lemma FallingFirst(accepted: seq<Op>, op: Op)
    requires op.Enq? && Falling(accepted)
    requires forall k :: 0 <= k < |accepted| ==> !OfRun(accepted[k], op.message.runId)
    ensures Falling(accepted + [op])
  {
    forall i | 0 <= i < |accepted| && accepted[i].Enq?
      ensures accepted[i].message.runId != op.message.runId
    {
      assert !OfRun(accepted[i], op.message.runId);
    }
  }

  /** Accepted triggers of one run less than 60 seconds apart have strictly falling priority numbers. */
  lemma {:induction false} AcceptedPrioritiesFall(capacity: nat, ops: seq<Op>)
    requires Clocked(ops)
    ensures Falling(AcceptedOps(capacity, ops))
    decreases |ops|
  {
    hide Falling, Timed, Enqueued;
    if ops == [] {
      NothingFalls();
    } else {
      ClockedFront(ops);
      AcceptedPrioritiesFall(capacity, Front(ops));
      if WasAccepted(capacity, ops) {
        var op, accepted := Last(ops), AcceptedOps(capacity, Front(ops));
        var dedup := After(capacity, Front(ops), false).dedup;
        AcceptedAreTimed(capacity, Front(ops), op.now);
        EntriesAreLatest(capacity, Front(ops), op.message.runId);
        CleanupIsInvisible(capacity, ops);
        if op.message.runId in dedup {
          var k :| 0 <= k < |accepted| && IsLatest(accepted, k, op.message.runId)
                   && dedup[op.message.runId] == Entry(accepted[k].message.priority, accepted[k].now);
          FallingAppend(accepted, op, k);
        } else {
          FallingFirst(accepted, op);
        }
      } else {
        assert AcceptedOps(capacity, ops) == AcceptedOps(capacity, Front(ops));
      }
    }
  }

  lemma NothingFalls()
    ensures Falling([])
  {
  }

  /** The run's latest accepted trigger is less than a minute old and at least as urgent. */
  ghost predicate Shadowed(accepted: seq<Op>, m: Message, now: int) {
    exists k: nat :: IsLatest(accepted, k, m.runId) && now - accepted[k].now < 60_000
                     && accepted[k].message.priority <= m.priority
  }

  lemma LatestIsOne(accepted: seq<Op>, runId: string, j: nat, k: nat)
    requires IsLatest(accepted, j, runId) && IsLatest(accepted, k, runId)
    ensures j == k
  {
  }

  lemma SuppressedMeans(dedup: map<string, Entry>, accepted: seq<Op>, m: Message, now: int)
    requires LatestEntry(dedup, accepted, m.runId)
    ensures Suppressed(dedup, m, now) <==> Shadowed(accepted, m, now)
  {
    if m.runId in dedup {
      var k :| 0 <= k < |accepted| && IsLatest(accepted, k, m.runId)
               && dedup[m.runId] == Entry(accepted[k].message.priority, accepted[k].now);
      forall j: nat | IsLatest(accepted, j, m.runId)
        ensures j == k
      {
        LatestIsOne(accepted, m.runId, j, k);
      }
    } else {
      forall j: nat
        ensures !IsLatest(accepted, j, m.runId)
      {
        NotLatest(accepted, m.runId, j);
      }
    }
  }

  lemma NotLatest(accepted: seq<Op>, runId: string, j: nat)
    requires forall k :: 0 <= k < |accepted| ==> !OfRun(accepted[k], runId)
    ensures !IsLatest(accepted, j, runId)
  {
  }

  /**
   Which triggers are accepted, over every trace: exactly those that find fewer waiting than the
   capacity and no equally or more urgent trigger of their run accepted less than a minute before.
   */
  lemma AcceptedExactlyWhen(capacity: nat, ops: seq<Op>)
    requires ops != [] && Clocked(ops) && Last(ops).Enq?
    ensures var before := Front(ops);
            var waiting := |Messages(AcceptedOps(capacity, before))| - |DequeuedMessages(capacity, before)|;
            WasAccepted(capacity, ops)
            <==> waiting < capacity && !Shadowed(AcceptedOps(capacity, before), Last(ops).message, Last(ops).now)
  {
    hide Suppressed, Shadowed, LatestEntry, After, Messages, DequeuedMessages, AcceptedOps;
    var before, op := Front(ops), Last(ops);
    ClockedFront(ops);
    CleanupIsInvisible(capacity, ops);
    CleanupSimulation(capacity, before, op.now);
    QueueIsFifo(capacity, before);
    EntriesAreLatest(capacity, before, op.message.runId);
    SuppressedMeans(After(capacity, before, false).dedup, AcceptedOps(capacity, before), op.message, op.now);
  }
}
