/**
 Whole runs of the span buffer. Conservation: each event's span is in exactly one of emitted,
 buffered, dropped by eviction, or replaced by a later `run_started`; and from the calls alone one can
 tell whether everything is emitted.
 */
module TraceRuns {
  import opened Wrappers
  import opened TraceBuffer

  /** How often a span occurs in a list. */
  function Count(spans: seq<nat>, id: nat): nat {
    if spans == [] then 0 else Count(Front(spans), id) + (if Last(spans) == id then 1 else 0)
  }

  lemma {:induction false} CountConcat(a: seq<nat>, b: seq<nat>, id: nat)
    ensures Count(a + b, id) == Count(a, id) + Count(b, id)
    decreases |b|
  {
    if b == [] {
      assert a + b == a;
    } else {
      CountConcat(a, Front(b), id);
      assert Front(a + b) == a + Front(b) && Last(a + b) == Last(b);
    }
  }

  /** How often a span is buffered. */
  function Buffered(traces: seq<Trace>, id: nat): nat {
    if traces == [] then 0 else Buffered(Front(traces), id) + Count(Last(traces).Spans(), id)
  }

  lemma BufferedAppend(traces: seq<Trace>, t: Trace, id: nat)
    ensures Buffered(traces + [t], id) == Buffered(traces, id) + Count(t.Spans(), id)
  {
    hide Count;
    assert Front(traces + [t]) == traces && Last(traces + [t]) == t;
  }

  lemma {:induction false} BufferedConcat(a: seq<Trace>, b: seq<Trace>, id: nat)
    ensures Buffered(a + b, id) == Buffered(a, id) + Buffered(b, id)
    decreases |b|
  {
    hide Count;
    if b == [] {
      assert a + b == a;
    } else {
      BufferedConcat(a, Front(b), id);
      assert Front(a + b) == a + Front(b) && Last(a + b) == Last(b);
    }
  }

  lemma BufferedWithout(traces: seq<Trace>, i: nat, id: nat)
    requires i < |traces|
    ensures Buffered(traces, id) == Buffered(Without(traces, i), id) + Count(traces[i].Spans(), id)
  {
    hide Buffered, Count;
    assert traces == (traces[..i] + [traces[i]]) + traces[i + 1..];
    BufferedConcat(traces[..i] + [traces[i]], traces[i + 1..], id);
    BufferedAppend(traces[..i], traces[i], id);
    BufferedConcat(traces[..i], traces[i + 1..], id);
  }

  lemma BufferedUpdate(traces: seq<Trace>, i: nat, t: Trace, id: nat)
    requires i < |traces|
    ensures Buffered(traces[i := t], id) + Count(traces[i].Spans(), id) == Buffered(traces, id) + Count(t.Spans(), id)
  {
    hide Buffered, Count;
    BufferedWithout(traces, i, id);
    BufferedWithout(traces[i := t], i, id);
    assert Without(traces[i := t], i) == Without(traces, i);
  }

  /** Each span seen is in exactly one place, counted with multiplicity. */
  ghost predicate Balanced(seen: seq<nat>, emitted: seq<nat>, traces: seq<Trace>, evicted: seq<nat>, replaced: seq<nat>) {
    forall id: nat ::
      Count(seen, id) == Count(emitted, id) + Buffered(traces, id) + Count(evicted, id) + Count(replaced, id)
  }

  // How each kind of step keeps the balance.

  lemma BalancedEmit(seen: seq<nat>, emitted: seq<nat>, traces: seq<Trace>, evicted: seq<nat>, replaced: seq<nat>, i: nat)
    requires i < |traces| && Balanced(seen, emitted, traces, evicted, replaced)
    ensures Balanced(seen, emitted + traces[i].Spans(), Without(traces, i), evicted, replaced)
    ensures Balanced(seen, emitted, Without(traces, i), evicted + traces[i].Spans(), replaced)
  {
    hide Count, Buffered;
    forall id: nat
      ensures Count(emitted + traces[i].Spans(), id) + Buffered(Without(traces, i), id) == Count(emitted, id) + Buffered(traces, id)
      ensures Count(evicted + traces[i].Spans(), id) + Buffered(Without(traces, i), id) == Count(evicted, id) + Buffered(traces, id)
    {
      CountConcat(emitted, traces[i].Spans(), id);
      CountConcat(evicted, traces[i].Spans(), id);
      BufferedWithout(traces, i, id);
    }
  }

  lemma BalancedOpen(seen: seq<nat>, emitted: seq<nat>, traces: seq<Trace>, evicted: seq<nat>, replaced: seq<nat>, t: Trace)
    requires t.Spans() == [] && Balanced(seen, emitted, traces, evicted, replaced)
    ensures Balanced(seen, emitted, traces + [t], evicted, replaced)
  {
    hide Buffered;
    forall id: nat
      ensures Buffered(traces + [t], id) == Buffered(traces, id)
    {
      BufferedAppend(traces, t, id);
    }
  }

  lemma BalancedChild(seen: seq<nat>, emitted: seq<nat>, traces: seq<Trace>, evicted: seq<nat>, replaced: seq<nat>,
                      i: nat, t: Trace, x: nat)
    requires i < |traces| && t.Spans() == traces[i].Spans() + [x]
    requires Balanced(seen, emitted, traces, evicted, replaced)
    ensures Balanced(seen + [x], emitted, traces[i := t], evicted, replaced)
  {
    hide Count, Buffered;
    forall id: nat
      ensures Count(seen + [x], id) == Count(seen, id) + Buffered(traces[i := t], id) - Buffered(traces, id)
    {
      CountConcat(seen, [x], id);
      CountConcat(traces[i].Spans(), [x], id);
      BufferedUpdate(traces, i, t, id);
    }
  }

  lemma BalancedRoot(seen: seq<nat>, emitted: seq<nat>, traces: seq<Trace>, evicted: seq<nat>, replaced: seq<nat>,
                     i: nat, x: nat)
    requires i < |traces| && Balanced(seen, emitted, traces, evicted, replaced)
    ensures var root := traces[i].rootSpan;
            Balanced(seen + [x], emitted, traces[i := traces[i].(rootSpan := Some(x))], evicted,
                     replaced + (if root.Some? then [root.value] else []))
  {
    hide Count, Buffered;
    var t := traces[i].(rootSpan := Some(x));
    var was: seq<nat> := if traces[i].rootSpan.Some? then [traces[i].rootSpan.value] else [];
    forall id: nat
      ensures Count(seen + [x], id) + Buffered(traces, id)
           == Count(seen, id) + Buffered(traces[i := t], id) + Count(replaced + was, id) - Count(replaced, id)
    {
      CountConcat(seen, [x], id);
      CountConcat(replaced, was, id);
      CountConcat(was, traces[i].childSpans, id);
      CountConcat([x], traces[i].childSpans, id);
      BufferedUpdate(traces, i, t, id);
    }
  }

  ghost predicate DistinctRuns(traces: seq<Trace>) {
    forall i, j :: 0 <= i < j < |traces| ==> traces[i].runId != traces[j].runId
  }

  /** What holds of the ledger after any calls whose events are `seen`. */
  ghost predicate Sound(seen: seq<nat>, s: Ledger) {
    && Balanced(seen, s.emitted, s.traces, s.evicted, s.replaced)
    && DistinctRuns(s.traces)
    && |s.traces| <= MAX_CONCURRENT_TRACES
    && forall t :: t in s.traces ==> t.Spans() != []
  }

  /** As `Sound`, with the trace of an event just opened and possibly still empty. */
  ghost predicate Opening(seen: seq<nat>, s: Ledger, i: nat) {
    && Balanced(seen, s.emitted, s.traces, s.evicted, s.replaced)
    && DistinctRuns(s.traces)
    && i < |s.traces| <= MAX_CONCURRENT_TRACES
    && forall j :: 0 <= j < |s.traces| && j != i ==> s.traces[j].Spans() != []
  }

  lemma WithoutKeeps(traces: seq<Trace>, k: nat)
    requires k < |traces| && DistinctRuns(traces)
    ensures DistinctRuns(Without(traces, k))
    ensures forall t :: t in Without(traces, k) ==> t in traces && t.runId != traces[k].runId
  {
    var rest := Without(traces, k);
    forall j | 0 <= j < |rest|
      ensures rest[j] in traces && rest[j].runId != traces[k].runId
    {
      assert rest[j] == traces[if j < k then j else j + 1];
    }
  }

  lemma MadeRoomKeeps(seen: seq<nat>, s: Ledger)
    requires Sound(seen, s)
    ensures Sound(seen, MadeRoom(s)) && |MadeRoom(s).traces| < MAX_CONCURRENT_TRACES
    ensures forall t :: t in MadeRoom(s).traces ==> t in s.traces
  {
    hide Balanced, DistinctRuns, OldestIndex;
    if |s.traces| >= MAX_CONCURRENT_TRACES {
      var k := OldestIndex(s.traces);
      BalancedEmit(seen, s.emitted, s.traces, s.evicted, s.replaced, k);
      WithoutKeeps(s.traces, k);
    }
  }

  lemma HeldMeans(traces: seq<Trace>, runId: string)
    ensures Held(traces, runId) <==> exists t :: t in traces && t.runId == runId
  {
    if Held(traces, runId) {
      assert traces[IndexOf(traces, runId)] in traces;
    }
  }

  lemma DistinctAppend(traces: seq<Trace>, t: Trace)
    requires DistinctRuns(traces) && forall u :: u in traces ==> u.runId != t.runId
    ensures DistinctRuns(traces + [t])
  {
  }

  lemma WithTraceKeeps(seen: seq<nat>, s: Ledger, runId: string, time: int)
    requires Sound(seen, s)
    ensures Opening(seen, WithTrace(s, runId, time), IndexOf(WithTrace(s, runId, time).traces, runId))
  {
    hide Balanced, DistinctRuns, MadeRoom, IndexOf;
    if !Held(s.traces, runId) {
      MadeRoomKeeps(seen, s);
      HeldMeans(s.traces, runId);
      var room := MadeRoom(s);
      BalancedOpen(seen, room.emitted, room.traces, room.evicted, room.replaced, NewTrace(runId, time));
      DistinctAppend(room.traces, NewTrace(runId, time));
      NewTraceIsLast(s, runId, time);
    }
  }

  lemma WithSpanKeeps(seen: seq<nat>, s: Ledger, i: nat, e: Event)
    requires Opening(seen, s, i)
    ensures Sound(seen + [e.id], WithSpan(s, i, e))
  {
    var t := Extended(s.traces[i], e);
    assert t.Spans() != [];
    hide Balanced;
    assert DistinctRuns(s.traces[i := t]);
    hide DistinctRuns;
    if e.kind == RunStarted {
      BalancedRoot(seen, s.emitted, s.traces, s.evicted, s.replaced, i, e.id);
    } else {
      assert t.Spans() == s.traces[i].Spans() + [e.id] && s.replaced + [] == s.replaced;
      BalancedChild(seen, s.emitted, s.traces, s.evicted, s.replaced, i, t, e.id);
    }
  }

  lemma EmittedKeeps(seen: seq<nat>, s: Ledger, i: nat)
    requires Sound(seen, s) && i < |s.traces|
    ensures Sound(seen, Emitted(s, i))
  {
    hide Balanced, DistinctRuns;
    BalancedEmit(seen, s.emitted, s.traces, s.evicted, s.replaced, i);
    WithoutKeeps(s.traces, i);
  }

  /** An event adds its own span and loses none. */
  lemma AddKeeps(seen: seq<nat>, s: Ledger, e: Event, time: int)
    requires Sound(seen, s)
    ensures Sound(seen + [e.id], AfterAdd(s, e, time))
  {
    hide Sound, WithTrace, WithSpan, Emitted, IndexOf;
    var held := WithTrace(s, e.runId, time);
    var i := IndexOf(held.traces, e.runId);
    WithTraceKeeps(seen, s, e.runId, time);
    WithSpanKeeps(seen, held, i, e);
    if e.kind == RunEnded {
      SpanStays(held, i, e);
      EmittedKeeps(seen + [e.id], WithSpan(held, i, e), i);
    }
  }

  lemma SpanStays(s: Ledger, i: nat, e: Event)
    requires i < |s.traces|
    ensures |WithSpan(s, i, e).traces| == |s.traces|
  {
  }

  lemma {:induction false} FlushBalances(seen: seq<nat>, emitted: seq<nat>, done: seq<Trace>, traces: seq<Trace>,
                                         evicted: seq<nat>, replaced: seq<nat>, cutoff: int)
    requires Balanced(seen, emitted, done + traces, evicted, replaced)
    ensures Balanced(seen, emitted + AllSpans(Aged(traces, cutoff)), done + Young(traces, cutoff), evicted, replaced)
    decreases |traces|
  {
    if traces == [] {
      NothingToFlush(emitted, cutoff);
    }
    hide Balanced, Young, Aged, AllSpans;
    if traces != [] && traces[0].firstEventTime > cutoff {
      assert done + traces == (done + [traces[0]]) + traces[1..];
      FlushBalances(seen, emitted, done + [traces[0]], traces[1..], evicted, replaced, cutoff);
      FlushKeepsHead(done, traces, cutoff);
    } else if traces != [] {
      BalancedEmit(seen, emitted, done + traces, evicted, replaced, |done|);
      assert Without(done + traces, |done|) == done + traces[1..];
      FlushBalances(seen, emitted + traces[0].Spans(), done, traces[1..], evicted, replaced, cutoff);
      FlushEmitsHead(emitted, traces, cutoff);
    }
  }

  lemma NothingToFlush(emitted: seq<nat>, cutoff: int)
    ensures emitted + AllSpans(Aged([], cutoff)) == emitted && Young([], cutoff) == []
  {
  }

  lemma FlushKeepsHead(done: seq<Trace>, traces: seq<Trace>, cutoff: int)
    requires traces != [] && traces[0].firstEventTime > cutoff
    ensures done + Young(traces, cutoff) == (done + [traces[0]]) + Young(traces[1..], cutoff)
    ensures Aged(traces, cutoff) == Aged(traces[1..], cutoff)
  {
    assert Aged(traces, cutoff) == [] + Aged(traces[1..], cutoff);
  }

  lemma FlushEmitsHead(emitted: seq<nat>, traces: seq<Trace>, cutoff: int)
    requires traces != [] && traces[0].firstEventTime <= cutoff
    ensures Young(traces, cutoff) == Young(traces[1..], cutoff)
    ensures emitted + AllSpans(Aged(traces, cutoff)) == (emitted + traces[0].Spans()) + AllSpans(Aged(traces[1..], cutoff))
  {
    var aged := Aged(traces, cutoff);
    assert aged == [traces[0]] + Aged(traces[1..], cutoff) && Young(traces, cutoff) == [] + Young(traces[1..], cutoff);
    hide Aged, AllSpans;
    assert Without(aged, 0) == Aged(traces[1..], cutoff);
    AllSpansStep(aged, emitted);
  }

  lemma {:induction false} YoungDistinct(traces: seq<Trace>, cutoff: int)
    requires DistinctRuns(traces)
    ensures DistinctRuns(Young(traces, cutoff)) && |Young(traces, cutoff)| <= |traces|
  {
    if traces != [] {
      DistinctTail(traces);
      hide DistinctRuns;
      YoungDistinct(traces[1..], cutoff);
      var rest := Young(traces[1..], cutoff);
      if traces[0].firstEventTime > cutoff {
        assert Young(traces, cutoff) == [traces[0]] + rest;
        hide Young;
        DistinctPrepend(traces[0], rest);
      } else {
        assert Young(traces, cutoff) == rest;
      }
    }
  }

  lemma DistinctTail(traces: seq<Trace>)
    requires traces != [] && DistinctRuns(traces)
    ensures DistinctRuns(traces[1..]) && forall t :: t in traces[1..] ==> t.runId != traces[0].runId
  {
  }

  lemma DistinctPrepend(t: Trace, traces: seq<Trace>)
    requires DistinctRuns(traces) && forall u :: u in traces ==> u.runId != t.runId
    ensures DistinctRuns([t] + traces)
  {
  }

  lemma FlushKeeps(seen: seq<nat>, s: Ledger, cutoff: int)
    requires Sound(seen, s)
    ensures Sound(seen, AfterFlush(s, cutoff))
  {
    hide Balanced, Young, Aged, AllSpans;
    assert [] + s.traces == s.traces && [] + Young(s.traces, cutoff) == Young(s.traces, cutoff);
    FlushBalances(seen, s.emitted, [], s.traces, s.evicted, s.replaced, cutoff);
    YoungDistinct(s.traces, cutoff);
    hide DistinctRuns;
  }

  // ---------------------------------------------------------------------
  // Replay
  // ---------------------------------------------------------------------

  /** One call of the exporter: an event arrives, or the periodic timeout flush fires. */
  datatype Step = Add(event: Event, time: int) | Tick(now: int, timeoutMs: int)

  function Names(steps: seq<Step>): seq<nat> {
    if steps == [] then []
    else Names(Front(steps)) + (if Last(steps).Add? then [Last(steps).event.id] else [])
  }

  function Next(s: Ledger, step: Step): Ledger {
    match step
    case Add(e, time) => AfterAdd(s, e, time)
    case Tick(now, timeoutMs) => AfterFlush(s, now - timeoutMs)
  }

  function Replay(steps: seq<Step>): Ledger {
    if steps == [] then EMPTY else Next(Replay(Front(steps)), Last(steps))
  }

  /** Conservation, and at most 1000 traces held, at every point of every run. */
  lemma {:induction false} Conservation(steps: seq<Step>)
    ensures Sound(Names(steps), Replay(steps))
    decreases |steps|
  {
    hide Sound, AfterAdd, AfterFlush;
    if steps == [] {
      SoundAtFirst();
    } else {
      Conservation(Front(steps));
      var s := Replay(Front(steps));
      match Last(steps)
      case Add(e, time) => AddKeeps(Names(Front(steps)), s, e, time);
      case Tick(now, timeoutMs) =>
        FlushKeeps(Names(Front(steps)), s, now - timeoutMs);
        assert Names(Front(steps)) + [] == Names(Front(steps));
    }
  }

  lemma SoundAtFirst()
    ensures Sound([], EMPTY)
  {
  }

  /** Everything a session emits, the flush at shutdown included. */
  function Output(steps: seq<Step>): seq<nat> {
    Replay(steps).emitted + AllSpans(Replay(steps).traces)
  }

  lemma OutputBalances(steps: seq<Step>)
    ensures Balanced(Names(steps), Output(steps), [], Replay(steps).evicted, Replay(steps).replaced)
  {
    hide Replay, Balanced, AllSpans;
    Conservation(steps);
    var s := Replay(steps);
    LatestFirst(s.traces);
    var cutoff := Latest(s.traces);
    assert [] + s.traces == s.traces && [] + Young(s.traces, cutoff) == [];
    FlushBalances(Names(steps), s.emitted, [], s.traces, s.evicted, s.replaced, cutoff);
  }

  function Latest(traces: seq<Trace>): int {
    if traces == [] then 0
    else
      var later := Latest(traces[1..]);
      if traces[0].firstEventTime > later then traces[0].firstEventTime else later
  }

  lemma {:induction false} AllAged(traces: seq<Trace>, cutoff: int)
    requires forall t :: t in traces ==> t.firstEventTime <= cutoff
    ensures Aged(traces, cutoff) == traces && Young(traces, cutoff) == []
  {
    if traces != [] {
      AllAged(traces[1..], cutoff);
    }
  }

  lemma {:induction false} LatestBounds(traces: seq<Trace>)
    ensures forall t :: t in traces ==> t.firstEventTime <= Latest(traces)
  {
    if traces != [] {
      LatestBounds(traces[1..]);
    }
  }

  lemma LatestFirst(traces: seq<Trace>)
    ensures Aged(traces, Latest(traces)) == traces && Young(traces, Latest(traces)) == []
  {
    LatestBounds(traces);
    AllAged(traces, Latest(traces));
  }

  /**
   A session of the exporter up to shutdown emits exactly what the replay of its calls emits, in that
   order; the evicted and replaced spans are the replay's, and every event's span is in one of the
   three as often as the event arrived.
   */
  method Session(steps: seq<Step>) returns (emitted: seq<nat>, ghost evicted: seq<nat>, ghost replaced: seq<nat>)
    ensures emitted == Output(steps)
    ensures evicted == Replay(steps).evicted && replaced == Replay(steps).replaced
    ensures forall id: nat :: Count(Names(steps), id) == Count(emitted, id) + Count(evicted, id) + Count(replaced, id)
  {
    hide Balanced, Count, AfterAdd, AfterFlush;
    var buffer := new Buffer();
    emitted := [];
    for n := 0 to |steps|
      invariant fresh(buffer) && buffer.Current() == Replay(steps[..n]) && buffer.emitted == emitted
    {
      assert Front(steps[..n + 1]) == steps[..n] && Last(steps[..n + 1]) == steps[n];
      match steps[n]
      case Add(e, time) =>
        var spans := buffer.AddEvent(e, time);
        emitted := emitted + spans;
      case Tick(now, timeoutMs) =>
        var spans := buffer.FlushTimedOut(now, timeoutMs);
        emitted := emitted + spans;
    }
    assert steps[..|steps|] == steps;
    evicted, replaced := buffer.evicted, buffer.replaced;
    var rest := buffer.FlushAll();
    emitted := emitted + rest;
    OutputBalances(steps);
    BalancedFlushed(Names(steps), emitted, evicted, replaced);
  }

  lemma BalancedFlushed(seen: seq<nat>, emitted: seq<nat>, evicted: seq<nat>, replaced: seq<nat>)
    requires Balanced(seen, emitted, [], evicted, replaced)
    ensures forall id: nat :: Count(seen, id) == Count(emitted, id) + Count(evicted, id) + Count(replaced, id)
  {
  }

  // ---------------------------------------------------------------------
  // When spans are lost
  // ---------------------------------------------------------------------

  /** The call opens a new trace while the buffer is full. */
  ghost predicate Crowds(s: Ledger, step: Step) {
    step.Add? && !Held(s.traces, step.event.runId) && |s.traces| >= MAX_CONCURRENT_TRACES
  }

  /** The call starts a run whose root is still buffered. */
  ghost predicate Restarts(s: Ledger, step: Step) {
    step.Add? && step.event.kind == RunStarted && Rooted(s.traces, step.event.runId)
  }

  lemma WithTraceLoses(seen: seq<nat>, s: Ledger, runId: string, time: int)
    requires Sound(seen, s)
    ensures var held := WithTrace(s, runId, time);
            && held.replaced == s.replaced
            && (held.evicted == [] <==>
                  s.evicted == [] && !(!Held(s.traces, runId) && |s.traces| >= MAX_CONCURRENT_TRACES))
            && Held(held.traces, runId)
            && (Rooted(held.traces, runId) <==> Rooted(s.traces, runId))
  {
    hide Balanced, DistinctRuns, OldestIndex, IndexOf;
    TraceIsHeld(s, runId, time);
    if !Held(s.traces, runId) {
      NewTraceIsLast(s, runId, time);
      if |s.traces| >= MAX_CONCURRENT_TRACES {
        assert s.traces[OldestIndex(s.traces)] in s.traces;
      }
    }
  }

  /** A call loses spans by eviction exactly when it crowds, and by replacement exactly when it restarts. */
  lemma NextLoses(seen: seq<nat>, s: Ledger, step: Step)
    requires Sound(seen, s)
    ensures Next(s, step).evicted == [] <==> s.evicted == [] && !Crowds(s, step)
    ensures Next(s, step).replaced == [] <==> s.replaced == [] && !Restarts(s, step)
  {
    hide Sound, WithTrace, IndexOf;
    if step.Add? {
      WithTraceLoses(seen, s, step.event.runId, step.time);
    }
  }

  ghost predicate CrowdsAt(steps: seq<Step>, j: nat)
    requires j < |steps|
  {
    Crowds(Replay(steps[..j]), steps[j])
  }

  ghost predicate RestartsAt(steps: seq<Step>, j: nat)
    requires j < |steps|
  {
    Restarts(Replay(steps[..j]), steps[j])
  }

  /** No call opens a trace while 1000 are held. */
  ghost predicate NeverFull(steps: seq<Step>) {
    forall j :: 0 <= j < |steps| ==> !CrowdsAt(steps, j)
  }

  /** No start hits a trace that is held with a root. */
  ghost predicate NeverRerooted(steps: seq<Step>) {
    forall j :: 0 <= j < |steps| ==> !RestartsAt(steps, j)
  }

  lemma SameCallBefore(steps: seq<Step>, j: nat)
    requires j < |steps| - 1
    ensures CrowdsAt(steps, j) <==> CrowdsAt(Front(steps), j)
    ensures RestartsAt(steps, j) <==> RestartsAt(Front(steps), j)
  {
    hide Replay, Crowds, Restarts;
    assert Front(steps)[..j] == steps[..j] && Front(steps)[j] == steps[j];
  }

  lemma LastCall(steps: seq<Step>)
    requires steps != []
    ensures CrowdsAt(steps, |steps| - 1) <==> Crowds(Replay(Front(steps)), Last(steps))
    ensures RestartsAt(steps, |steps| - 1) <==> Restarts(Replay(Front(steps)), Last(steps))
  {
    hide Replay, Crowds, Restarts;
    assert steps[..|steps| - 1] == Front(steps);
  }

  lemma NeverFullStep(steps: seq<Step>)
    requires steps != []
    ensures NeverFull(steps) <==> NeverFull(Front(steps)) && !Crowds(Replay(Front(steps)), Last(steps))
    ensures NeverRerooted(steps) <==> NeverRerooted(Front(steps)) && !Restarts(Replay(Front(steps)), Last(steps))
  {
    hide Replay, Crowds, Restarts, CrowdsAt, RestartsAt;
    LastCall(steps);
    forall j | 0 <= j < |steps| - 1
      ensures CrowdsAt(steps, j) <==> CrowdsAt(Front(steps), j)
      ensures RestartsAt(steps, j) <==> RestartsAt(Front(steps), j)
    {
      SameCallBefore(steps, j);
    }
  }

  /** Nothing is evicted, or replaced, if and only if no call does it to the buffer it finds. */
  lemma {:induction false} LossExactlyWhen(steps: seq<Step>)
    ensures Replay(steps).evicted == [] <==> NeverFull(steps)
    ensures Replay(steps).replaced == [] <==> NeverRerooted(steps)
    decreases |steps|
  {
    if steps != [] {
      hide Next, Crowds, Restarts, NeverFull, NeverRerooted;
      LossExactlyWhen(Front(steps));
      Conservation(Front(steps));
      NextLoses(Names(Front(steps)), Replay(Front(steps)), Last(steps));
      NeverFullStep(steps);
    }
  }

  // ---------------------------------------------------------------------
  // The same, read off the calls alone
  // ---------------------------------------------------------------------

  /**
   One life of a run, from its first event until it ends or times out: when it began, its latest
   start, its other events in order, and those among them that annotate the root.
   */
  datatype Life = Life(first: int, root: Option<nat>, children: seq<nat>, annotations: seq<nat>)

  function LifeAfter(life: Option<Life>, step: Step, runId: string): Option<Life> {
    match step
    case Add(e, time) =>
      if e.runId != runId then life
      else if e.kind == RunEnded then None
      else
        var known := if life.Some? then life.value else Life(time, None, [], []);
        if e.kind == RunStarted then Some(known.(root := Some(e.id)))
        else if e.kind == RootAnnotation
        then Some(known.(children := known.children + [e.id], annotations := known.annotations + [e.id]))
        else Some(known.(children := known.children + [e.id]))
    case Tick(now, timeoutMs) =>
      if life.Some? && now - life.value.first >= timeoutMs then None else life
  }

  /** The current life of a run; other runs and the limit play no part. */
  function LifeOf(steps: seq<Step>, runId: string): Option<Life> {
    if steps == [] then None else LifeAfter(LifeOf(Front(steps), runId), Last(steps), runId)
  }

  /** The runs that are alive. */
  function LiveRuns(steps: seq<Step>): set<string> {
    set j | 0 <= j < |steps| && steps[j].Add? && LifeOf(steps, steps[j].event.runId).Some? :: steps[j].event.runId
  }

  /** No event arrives that would make more than 1000 runs alive at once. */
  ghost predicate NeverCrowded(steps: seq<Step>) {
    forall j :: 0 <= j < |steps| && steps[j].Add? ==>
      |LiveRuns(steps[..j]) + {steps[j].event.runId}| <= 1000
  }

  /** No run starts a second time within one life. */
  ghost predicate NeverRestarted(steps: seq<Step>) {
    forall j :: 0 <= j < |steps| && steps[j].Add? && steps[j].event.kind == RunStarted ==>
      !StartedAlive(steps[..j], steps[j].event.runId)
  }

  predicate StartedAlive(steps: seq<Step>, runId: string) {
    LifeOf(steps, runId).Some? && LifeOf(steps, runId).value.root.Some?
  }

  /** The life that the buffer shows of a run. */
  function Shown(traces: seq<Trace>, runId: string): Option<Life> {
    var i := IndexOf(traces, runId);
    if i < |traces| then Some(LifeOfTrace(traces[i])) else None
  }

  function LifeOfTrace(t: Trace): Life {
    Life(t.firstEventTime, t.rootSpan, t.childSpans, t.rootSpanEvents)
  }

  lemma ShownIs(traces: seq<Trace>, t: Trace)
    requires DistinctRuns(traces) && t in traces
    ensures Shown(traces, t.runId) == Some(LifeOfTrace(t))
  {
    hide IndexOf;
    var j :| 0 <= j < |traces| && traces[j] == t;
    IndexOfUnique(traces, t.runId, j);
  }

  lemma NotShown(traces: seq<Trace>, runId: string)
    requires forall t :: t in traces ==> t.runId != runId
    ensures Shown(traces, runId) == None
  {
  }

  /** Two buffers with the same traces of a run show the same of it. */
  lemma ShownAlike(a: seq<Trace>, b: seq<Trace>, runId: string)
    requires DistinctRuns(a) && DistinctRuns(b)
    requires forall t: Trace :: t.runId == runId ==> (t in a <==> t in b)
    ensures Shown(a, runId) == Shown(b, runId)
  {
    hide DistinctRuns;
    if Held(a, runId) {
      var t := a[IndexOf(a, runId)];
      assert t in a;
      ShownIs(a, t);
      ShownIs(b, t);
    } else {
      NotShown(a, runId);
      NotShown(b, runId);
    }
  }

  lemma ShownAfterOpen(s: Ledger, runId: string, time: int, r: string)
    requires DistinctRuns(s.traces) && (Held(s.traces, runId) || |s.traces| < MAX_CONCURRENT_TRACES)
    ensures DistinctRuns(WithTrace(s, runId, time).traces)
    ensures Shown(WithTrace(s, runId, time).traces, r)
         == if r == runId && !Held(s.traces, r) then Some(Life(time, None, [], [])) else Shown(s.traces, r)
  {
    hide DistinctRuns, IndexOf, OldestIndex;
    var traces := WithTrace(s, runId, time).traces;
    if !Held(s.traces, runId) {
      HeldMeans(s.traces, runId);
      DistinctAppend(s.traces, NewTrace(runId, time));
      assert traces == s.traces + [NewTrace(runId, time)];
      if r == runId {
        assert traces[|s.traces|] in traces;
        ShownIs(traces, NewTrace(runId, time));
      } else {
        ShownAlike(traces, s.traces, r);
      }
    }
  }

  lemma ShownAfterSpan(s: Ledger, i: nat, e: Event, r: string)
    requires DistinctRuns(s.traces) && i < |s.traces| && s.traces[i].runId == e.runId
    ensures DistinctRuns(WithSpan(s, i, e).traces)
    ensures Shown(WithSpan(s, i, e).traces, r)
         == if r == e.runId then Some(LifeOfTrace(Extended(s.traces[i], e))) else Shown(s.traces, r)
  {
    var t := Extended(s.traces[i], e);
    var traces := s.traces[i := t];
    assert DistinctRuns(traces);
    hide DistinctRuns, IndexOf;
    if r == e.runId {
      assert traces[i] in traces;
      ShownIs(traces, t);
    } else {
      forall u: Trace | u.runId == r
        ensures u in traces <==> u in s.traces
      {
        OthersStay(s.traces, i, t, u);
      }
      ShownAlike(traces, s.traces, r);
    }
  }

  lemma OthersStay(traces: seq<Trace>, i: nat, t: Trace, u: Trace)
    requires i < |traces| && u != t && u != traces[i]
    ensures u in traces[i := t] <==> u in traces
    ensures u in Without(traces, i) <==> u in traces
  {
    if u in traces {
      var j :| 0 <= j < |traces| && traces[j] == u;
      assert traces[i := t][j] == u && Without(traces, i)[if j < i then j else j - 1] == u;
    }
  }

  lemma ShownAfterEmit(s: Ledger, i: nat, r: string)
    requires DistinctRuns(s.traces) && i < |s.traces|
    ensures Shown(Emitted(s, i).traces, r) == if r == s.traces[i].runId then None else Shown(s.traces, r)
  {
    hide DistinctRuns, IndexOf;
    var t := s.traces[i];
    WithoutKeeps(s.traces, i);
    if r == t.runId {
      NotShown(Without(s.traces, i), r);
    } else {
      forall u: Trace | u.runId == r
        ensures u in Without(s.traces, i) <==> u in s.traces
      {
        OthersStay(s.traces, i, t, u);
      }
      ShownAlike(Without(s.traces, i), s.traces, r);
    }
  }

  /** While nothing is evicted, the buffer shows the life that the calls give. */
  lemma ShownAfterAdd(s: Ledger, e: Event, time: int, r: string)
    requires DistinctRuns(s.traces) && !Crowds(s, Add(e, time))
    ensures Shown(AfterAdd(s, e, time).traces, r) == LifeAfter(Shown(s.traces, r), Add(e, time), r)
  {
    hide DistinctRuns, WithTrace, WithSpan, Emitted, IndexOf;
    var held := WithTrace(s, e.runId, time);
    TraceIsHeld(s, e.runId, time);
    var i := IndexOf(held.traces, e.runId);
    ShownAfterOpen(s, e.runId, time, r);
    ShownAfterOpen(s, e.runId, time, e.runId);
    ShownAfterSpan(held, i, e, r);
    if e.kind == RunEnded {
      SpanStays(held, i, e);
      RunStays(held, i, e);
      ShownAfterEmit(WithSpan(held, i, e), i, r);
    }
  }

  lemma RunStays(s: Ledger, i: nat, e: Event)
    requires i < |s.traces|
    ensures |WithSpan(s, i, e).traces| == |s.traces| && WithSpan(s, i, e).traces[i].runId == s.traces[i].runId
  {
  }

  lemma ShownAfterFlush(s: Ledger, now: int, timeoutMs: int, r: string)
    requires DistinctRuns(s.traces)
    ensures Shown(AfterFlush(s, now - timeoutMs).traces, r) == LifeAfter(Shown(s.traces, r), Tick(now, timeoutMs), r)
  {
    hide DistinctRuns, IndexOf, Young;
    var young := Young(s.traces, now - timeoutMs);
    YoungDistinct(s.traces, now - timeoutMs);
    HeldMeans(s.traces, r);
    if Held(s.traces, r) {
      var t := s.traces[IndexOf(s.traces, r)];
      assert t in s.traces;
      ShownIs(s.traces, t);
      if t in young {
        ShownIs(young, t);
      } else {
        forall u | u in young
          ensures u.runId != r
        {
          if u.runId == r {
            ShownIs(s.traces, u);
          }
        }
        NotShown(young, r);
      }
    } else {
      NotShown(young, r);
    }
  }

  ghost predicate ShowsLives(steps: seq<Step>) {
    forall r :: Shown(Replay(steps).traces, r) == LifeOf(steps, r)
  }

  lemma {:induction false} LivesAreShown(steps: seq<Step>)
    requires Replay(steps).evicted == []
    ensures ShowsLives(steps)
    decreases |steps|
  {
    hide AfterAdd, AfterFlush, LifeAfter, Crowds, Sound;
    if steps != [] {
      var s := Replay(Front(steps));
      Conservation(Front(steps));
      NextLoses(Names(Front(steps)), s, Last(steps));
      LivesAreShown(Front(steps));
      SoundIsDistinct(Names(Front(steps)), s);
      forall r
        ensures Shown(Replay(steps).traces, r) == LifeOf(steps, r)
      {
        assert Shown(s.traces, r) == LifeOf(Front(steps), r);
        match Last(steps)
        case Add(e, time) => ShownAfterAdd(s, e, time, r);
        case Tick(now, timeoutMs) => ShownAfterFlush(s, now, timeoutMs, r);
      }
    }
  }

  lemma SoundIsDistinct(seen: seq<nat>, s: Ledger)
    requires Sound(seen, s)
    ensures DistinctRuns(s.traces) && |s.traces| <= MAX_CONCURRENT_TRACES
  {
  }

  function RunsOf(traces: seq<Trace>): set<string> {
    set t | t in traces :: t.runId
  }

  lemma {:induction false} RunsOfSize(traces: seq<Trace>)
    requires DistinctRuns(traces)
    ensures |RunsOf(traces)| == |traces|
  {
    if traces != [] {
      RunsOfSize(Front(traces));
      assert traces == Front(traces) + [Last(traces)];
      assert RunsOf(traces) == RunsOf(Front(traces)) + {Last(traces).runId};
    }
  }

  /** A live run has had an event. */
  lemma {:induction false} LifeHasEvent(steps: seq<Step>, runId: string)
    requires LifeOf(steps, runId).Some?
    ensures exists j :: 0 <= j < |steps| && steps[j].Add? && steps[j].event.runId == runId
    decreases |steps|
  {
    if Last(steps).Add? && Last(steps).event.runId == runId {
      assert steps[|steps| - 1] == Last(steps);
    } else {
      LifeHasEvent(Front(steps), runId);
      var j :| 0 <= j < |Front(steps)| && Front(steps)[j].Add? && Front(steps)[j].event.runId == runId;
      assert steps[j] == Front(steps)[j];
    }
  }

  lemma LiveRunsAreHeld(steps: seq<Step>)
    requires ShowsLives(steps)
    ensures LiveRuns(steps) == RunsOf(Replay(steps).traces)
  {
    hide Replay, LifeOf, IndexOf;
    var traces := Replay(steps).traces;
    forall r
      ensures r in LiveRuns(steps) <==> r in RunsOf(traces)
    {
      assert Shown(traces, r) == LifeOf(steps, r);
      HeldMeans(traces, r);
      if LifeOf(steps, r).Some? {
        LifeHasEvent(steps, r);
      }
    }
  }

  /** Without evictions so far, a call crowds exactly when it makes more than 1000 runs alive. */
  lemma CrowdsExactlyWhen(steps: seq<Step>, step: Step)
    requires Replay(steps).evicted == [] && step.Add?
    ensures Crowds(Replay(steps), step) <==> |LiveRuns(steps) + {step.event.runId}| > MAX_CONCURRENT_TRACES
  {
    hide Replay, LiveRuns, IndexOf, Sound;
    var traces, r := Replay(steps).traces, step.event.runId;
    Conservation(steps);
    SoundIsDistinct(Names(steps), Replay(steps));
    LivesAreShown(steps);
    LiveRunsAreHeld(steps);
    RunsOfSize(traces);
    HeldMeans(traces, r);
    if Held(traces, r) {
      assert RunsOf(traces) + {r} == RunsOf(traces);
    } else {
      assert r !in RunsOf(traces);
    }
  }

  lemma NeverCrowdedStep(steps: seq<Step>)
    requires steps != []
    ensures NeverCrowded(steps)
       <==> && NeverCrowded(Front(steps))
            && (Last(steps).Add? ==> |LiveRuns(Front(steps)) + {Last(steps).event.runId}| <= MAX_CONCURRENT_TRACES)
  {
    hide LiveRuns;
    assert forall j :: 0 <= j < |steps| - 1 ==> Front(steps)[..j] == steps[..j] && Front(steps)[j] == steps[j];
    assert steps[..|steps| - 1] == Front(steps);
    if NeverCrowded(steps) && Last(steps).Add? {
      assert steps[|steps| - 1].Add?;
    }
  }

  lemma NeverRestartedStep(steps: seq<Step>)
    requires steps != []
    ensures NeverRestarted(steps)
       <==> && NeverRestarted(Front(steps))
            && !(Last(steps).Add? && Last(steps).event.kind == RunStarted && StartedAlive(Front(steps), Last(steps).event.runId))
  {
    hide StartedAlive;
    assert forall j :: 0 <= j < |steps| - 1 ==> Front(steps)[..j] == steps[..j] && Front(steps)[j] == steps[j];
    assert steps[..|steps| - 1] == Front(steps);
    if NeverRestarted(steps) && Last(steps).Add? && Last(steps).event.kind == RunStarted {
      assert steps[|steps| - 1].Add?;
    }
  }

  /** Nothing is ever evicted if and only if the calls never make more than 1000 runs alive at once. */
  lemma {:induction false} NothingEvictedExactlyWhen(steps: seq<Step>)
    ensures Replay(steps).evicted == [] <==> NeverCrowded(steps)
    decreases |steps|
  {
    hide NeverCrowded, Next, Crowds, LiveRuns;
    if steps == [] {
      NothingCrowds();
    } else {
      NothingEvictedExactlyWhen(Front(steps));
      NeverCrowdedStep(steps);
      Conservation(Front(steps));
      NextLoses(Names(Front(steps)), Replay(Front(steps)), Last(steps));
      if Replay(Front(steps)).evicted == [] && Last(steps).Add? {
        CrowdsExactlyWhen(Front(steps), Last(steps));
      }
      TickCrowdsNot(Replay(Front(steps)), Last(steps));
    }
  }

  lemma NothingCrowds()
    ensures NeverCrowded([]) && NeverRestarted([])
  {
  }

  lemma TickCrowdsNot(s: Ledger, step: Step)
    ensures step.Tick? ==> !Crowds(s, step) && !Restarts(s, step)
  {
  }

  lemma RestartsExactlyWhen(steps: seq<Step>, step: Step)
    requires Replay(steps).evicted == []
    ensures Restarts(Replay(steps), step)
       <==> step.Add? && step.event.kind == RunStarted && StartedAlive(steps, step.event.runId)
  {
    hide Replay, LifeOf, IndexOf;
    LivesAreShown(steps);
    if step.Add? {
      assert Shown(Replay(steps).traces, step.event.runId) == LifeOf(steps, step.event.runId);
    }
  }

  /** Without evictions, nothing is replaced if and only if no run starts twice within one life. */
  lemma {:induction false} NothingReplacedExactlyWhen(steps: seq<Step>)
    requires Replay(steps).evicted == []
    ensures Replay(steps).replaced == [] <==> NeverRestarted(steps)
    decreases |steps|
  {
    hide NeverRestarted, Next, Restarts, StartedAlive, Crowds;
    if steps == [] {
      NothingCrowds();
    } else {
      Conservation(Front(steps));
      NextLoses(Names(Front(steps)), Replay(Front(steps)), Last(steps));
      NothingReplacedExactlyWhen(Front(steps));
      NeverRestartedStep(steps);
      RestartsExactlyWhen(Front(steps), Last(steps));
    }
  }

  /** The same spans, each as often. */
  ghost predicate SameSpans(a: seq<nat>, b: seq<nat>) {
    forall id: nat :: Count(a, id) == Count(b, id)
  }

  lemma {:induction false} CountsNothing(spans: seq<nat>)
    ensures spans == [] <==> forall id: nat :: Count(spans, id) == 0
  {
    if spans != [] {
      assert Count(spans, Last(spans)) >= 1;
    }
  }

  /**
   Main result: a session emits every event's span exactly as often as the event arrived if and only
   if its calls never make more than 1000 runs alive at once and never start a run twice in one life.
   */
  lemma EverythingEmittedExactlyWhen(steps: seq<Step>)
    ensures SameSpans(Output(steps), Names(steps)) <==> NeverCrowded(steps) && NeverRestarted(steps)
  {
    hide SameSpans, Count, Output, Names, Replay, NeverCrowded, NeverRestarted, Balanced;
    OutputBalances(steps);
    BalancedCompletely(Names(steps), Output(steps), Replay(steps).evicted, Replay(steps).replaced);
    NothingEvictedExactlyWhen(steps);
    if Replay(steps).evicted == [] {
      NothingReplacedExactlyWhen(steps);
    }
  }

  lemma BalancedCompletely(seen: seq<nat>, emitted: seq<nat>, evicted: seq<nat>, replaced: seq<nat>)
    requires Balanced(seen, emitted, [], evicted, replaced)
    ensures SameSpans(emitted, seen) <==> evicted == [] && replaced == []
  {
    BalancedFlushed(seen, emitted, evicted, replaced);
    CountsNothing(evicted);
    CountsNothing(replaced);
    if SameSpans(emitted, seen) {
      forall id: nat
        ensures Count(evicted, id) == 0 && Count(replaced, id) == 0
      {
        assert Count(emitted, id) == Count(seen, id);
      }
    }
  }

  // ---------------------------------------------------------------------
  // What is emitted
  // ---------------------------------------------------------------------

  /** The spans of a life in emission order: the root first, if the run has started. */
  function SpansOf(life: Option<Life>): seq<nat> {
    if life.None? then []
    else if life.value.root.Some? then [life.value.root.value] + life.value.children
    else life.value.children
  }

  /** The end of a run emits its life: the root, the other events in order, and the end itself. */
  lemma EndEmits(steps: seq<Step>, e: Event, time: int)
    requires e.kind == RunEnded && Replay(steps + [Add(e, time)]).evicted == []
    ensures Replay(steps + [Add(e, time)]).emitted == Replay(steps).emitted + SpansOf(LifeOf(steps, e.runId)) + [e.id]
  {
    var all := steps + [Add(e, time)];
    assert Front(all) == steps && Last(all) == Add(e, time);
    var s := Replay(steps);
    Conservation(steps);
    NextLoses(Names(steps), s, Add(e, time));
    LivesAreShown(steps);
    SoundIsDistinct(Names(steps), s);
    assert Shown(s.traces, e.runId) == LifeOf(steps, e.runId);
    hide Replay, LifeOf, Sound;
    AddEmits(s, e, time);
  }

  lemma AddEmits(s: Ledger, e: Event, time: int)
    requires e.kind == RunEnded && DistinctRuns(s.traces) && !Crowds(s, Add(e, time))
    ensures AfterAdd(s, e, time).emitted == s.emitted + SpansOf(Shown(s.traces, e.runId)) + [e.id]
  {
    hide DistinctRuns, IndexOf, OldestIndex;
    TraceIsHeld(s, e.runId, time);
    if !Held(s.traces, e.runId) {
      NewTraceIsLast(s, e.runId, time);
    }
    var held := WithTrace(s, e.runId, time);
    var t := held.traces[IndexOf(held.traces, e.runId)];
    assert SpansOf(Shown(s.traces, e.runId)) == t.Spans();
    assert Extended(t, e).Spans() == t.Spans() + [e.id];
    assert s.emitted + (t.Spans() + [e.id]) == s.emitted + t.Spans() + [e.id];
  }
}
