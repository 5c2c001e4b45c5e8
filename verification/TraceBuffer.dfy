/**
 The span buffer of the telemetry exporter. Every event yields one span; a span is buffered with its
 run until the run ends, times out or is flushed. `Ledger` is the pure meaning of the buffer and of
 where spans went; the class performs it on mutable state.
 */
module TraceBuffer {
  import opened Wrappers

  const MAX_CONCURRENT_TRACES := 1000

  /** An event, named by its position in the input; its span carries the same name. */
  datatype Event = Event(id: nat, runId: string, kind: Kind)

  datatype Kind = RunStarted | RunEnded | RootAnnotation | Other

  datatype Trace = Trace(
    runId: string,
    rootSpan: Option<nat>,
    childSpans: seq<nat>,
    rootSpanEvents: seq<nat>,
    firstEventTime: int)
  {
    /** The spans of the trace in emission order: the root first, if there is one. */
    function Spans(): seq<nat> {
      (if rootSpan.Some? then [rootSpan.value] else []) + childSpans
    }
  }

  /** The buffer, and where the spans that are not in it have gone. */
  datatype Ledger = Ledger(traces: seq<Trace>, emitted: seq<nat>, evicted: seq<nat>, replaced: seq<nat>)

  const EMPTY := Ledger([], [], [], [])

  /** Where the trace of a run stands; the length if there is none. */
  function IndexOf(traces: seq<Trace>, runId: string): (i: nat)
    ensures i <= |traces| && (i < |traces| ==> traces[i].runId == runId)
    ensures forall j :: 0 <= j < i ==> traces[j].runId != runId
  {
    if traces == [] || traces[0].runId == runId then 0 else 1 + IndexOf(traces[1..], runId)
  }

  lemma IndexOfUnique(traces: seq<Trace>, runId: string, i: nat)
    requires i <= |traces| && (i < |traces| ==> traces[i].runId == runId)
    requires forall j :: 0 <= j < i ==> traces[j].runId != runId
    ensures IndexOf(traces, runId) == i
  {
  }

  predicate Held(traces: seq<Trace>, runId: string) {
    IndexOf(traces, runId) < |traces|
  }

  predicate Rooted(traces: seq<Trace>, runId: string) {
    var i := IndexOf(traces, runId);
    i < |traces| && traces[i].rootSpan.Some?
  }

  function Without(traces: seq<Trace>, i: nat): seq<Trace>
    requires i < |traces|
  {
    traces[..i] + traces[i + 1..]
  }

  /** The first of the traces with the oldest first event. */
  function OldestIndex(traces: seq<Trace>): (k: nat)
    requires traces != []
    ensures k < |traces|
    ensures forall j :: 0 <= j < |traces| ==> traces[k].firstEventTime <= traces[j].firstEventTime
    ensures forall j :: 0 <= j < k ==> traces[k].firstEventTime < traces[j].firstEventTime
  {
    if |traces| == 1 then 0
    else
      var k := OldestIndex(Front(traces));
      assert forall j :: 0 <= j < |traces| - 1 ==> Front(traces)[j] == traces[j];
      if Last(traces).firstEventTime < traces[k].firstEventTime then |traces| - 1 else k
  }

  lemma OldestStep(traces: seq<Trace>, j: nat)
    requires j < |traces|
    ensures OldestIndex(traces[..j + 1])
         == if j == 0 then 0 else
              var k := OldestIndex(traces[..j]);
              if traces[j].firstEventTime < traces[k].firstEventTime then j else k
  {
    assert Front(traces[..j + 1]) == traces[..j];
  }

  /** At the limit the oldest trace is dropped. */
  function MadeRoom(s: Ledger): Ledger {
    if |s.traces| < MAX_CONCURRENT_TRACES then s
    else
      var k := OldestIndex(s.traces);
      s.(traces := Without(s.traces, k), evicted := s.evicted + s.traces[k].Spans())
  }

  function NewTrace(runId: string, time: int): Trace {
    Trace(runId, None, [], [], time)
  }

  function WithTrace(s: Ledger, runId: string, time: int): Ledger {
    if Held(s.traces, runId) then s
    else
      var room := MadeRoom(s);
      room.(traces := room.traces + [NewTrace(runId, time)])
  }

  /** The trace of a run that was not held is the last one. */
  lemma NewTraceIsLast(s: Ledger, runId: string, time: int)
    requires !Held(s.traces, runId)
    ensures var traces := WithTrace(s, runId, time).traces; IndexOf(traces, runId) == |traces| - 1
  {
    hide OldestIndex;
    var room := MadeRoom(s).traces;
    assert forall j :: 0 <= j < |room| ==> room[j] in s.traces;
    IndexOfUnique(room + [NewTrace(runId, time)], runId, |room|);
  }

  lemma TraceIsHeld(s: Ledger, runId: string, time: int)
    ensures Held(WithTrace(s, runId, time).traces, runId)
  {
    if !Held(s.traces, runId) {
      NewTraceIsLast(s, runId, time);
    }
  }

  /** The trace of an event's run with the event's span in it. */
  function Extended(trace: Trace, e: Event): (extended: Trace)
    ensures extended.runId == trace.runId && extended.firstEventTime == trace.firstEventTime
    ensures e.id in extended.Spans() && forall id :: id in trace.childSpans ==> id in extended.Spans()
  {
    match e.kind
    case RunStarted => trace.(rootSpan := Some(e.id))
    case RootAnnotation => trace.(rootSpanEvents := trace.rootSpanEvents + [e.id], childSpans := trace.childSpans + [e.id])
    case RunEnded | Other => trace.(childSpans := trace.childSpans + [e.id])
  }

  /** The root that an event replaces, if any. */
  function OldRoot(trace: Trace, e: Event): seq<nat> {
    if e.kind == RunStarted && trace.rootSpan.Some? then [trace.rootSpan.value] else []
  }

  function WithSpan(s: Ledger, i: nat, e: Event): Ledger
    requires i < |s.traces|
  {
    s.(traces := s.traces[i := Extended(s.traces[i], e)], replaced := s.replaced + OldRoot(s.traces[i], e))
  }

  function Emitted(s: Ledger, i: nat): Ledger
    requires i < |s.traces|
  {
    s.(traces := Without(s.traces, i), emitted := s.emitted + s.traces[i].Spans())
  }

  /** An event's span joins its run's trace, which leaves as a whole when the run ends. */
  function AfterAdd(s: Ledger, e: Event, time: int): Ledger {
    var held := WithTrace(s, e.runId, time);
    TraceIsHeld(s, e.runId, time);
    var i := IndexOf(held.traces, e.runId);
    if e.kind == RunEnded then Emitted(WithSpan(held, i, e), i) else WithSpan(held, i, e)
  }

  /** The traces first seen after `cutoff`, and the others, both in order. */
  function Young(traces: seq<Trace>, cutoff: int): (young: seq<Trace>)
    ensures forall t :: t in young <==> t in traces && t.firstEventTime > cutoff
  {
    if traces == [] then [] else (if traces[0].firstEventTime > cutoff then [traces[0]] else []) + Young(traces[1..], cutoff)
  }

  function Aged(traces: seq<Trace>, cutoff: int): (aged: seq<Trace>)
    ensures forall t :: t in aged <==> t in traces && t.firstEventTime <= cutoff
  {
    if traces == [] then [] else (if traces[0].firstEventTime > cutoff then [] else [traces[0]]) + Aged(traces[1..], cutoff)
  }

  function AllSpans(traces: seq<Trace>): seq<nat> {
    if traces == [] then [] else traces[0].Spans() + AllSpans(traces[1..])
  }

  lemma AllSpansStep(traces: seq<Trace>, r: seq<nat>)
    requires traces != []
    ensures (r + traces[0].Spans()) + AllSpans(Without(traces, 0)) == r + AllSpans(traces)
    ensures |Without(traces, 0)| == |traces| - 1
  {
    assert Without(traces, 0) == traces[1..];
  }

  lemma AllSpansEnd()
    ensures AllSpans([]) == []
  {
  }

  lemma FlushAgedStep(traces: seq<Trace>, i: nat, cutoff: int, r: seq<nat>)
    requires i < |traces| && traces[i].firstEventTime <= cutoff
    ensures var rest := Without(traces, i);
            && |rest| == |traces| - 1
            && rest[..i] + Young(rest[i..], cutoff) == traces[..i] + Young(traces[i..], cutoff)
            && (r + traces[i].Spans()) + AllSpans(Aged(rest[i..], cutoff)) == r + AllSpans(Aged(traces[i..], cutoff))
  {
    var rest := Without(traces, i);
    assert rest[..i] == traces[..i] && rest[i..] == traces[i + 1..] == traces[i..][1..];
    var aged := Aged(traces[i..], cutoff);
    assert aged == [traces[i]] + Aged(rest[i..], cutoff) && Young(traces[i..], cutoff) == Young(rest[i..], cutoff);
    hide Young, Aged, AllSpans;
    assert Without(aged, 0) == Aged(rest[i..], cutoff);
    AllSpansStep(aged, r);
  }

  lemma FlushYoungStep(traces: seq<Trace>, i: nat, cutoff: int)
    requires i < |traces| && traces[i].firstEventTime > cutoff
    ensures traces[..i + 1] + Young(traces[i + 1..], cutoff) == traces[..i] + Young(traces[i..], cutoff)
    ensures AllSpans(Aged(traces[i + 1..], cutoff)) == AllSpans(Aged(traces[i..], cutoff))
  {
    YoungHead(traces[i..], cutoff);
    hide AllSpans, Young, Aged;
    assert traces[i..][0] == traces[i] && traces[i..][1..] == traces[i + 1..];
    assert traces[..i + 1] == traces[..i] + [traces[i]];
    assert traces[..i] + ([traces[i]] + Young(traces[i + 1..], cutoff)) == traces[..i + 1] + Young(traces[i + 1..], cutoff);
  }

  lemma YoungHead(traces: seq<Trace>, cutoff: int)
    requires traces != [] && traces[0].firstEventTime > cutoff
    ensures Young(traces, cutoff) == [traces[0]] + Young(traces[1..], cutoff)
    ensures Aged(traces, cutoff) == Aged(traces[1..], cutoff)
  {
    assert Aged(traces, cutoff) == [] + Aged(traces[1..], cutoff);
  }

  lemma FlushEnd(traces: seq<Trace>, cutoff: int)
    ensures traces[..|traces|] + Young(traces[|traces|..], cutoff) == traces
    ensures forall r: seq<nat> :: r + AllSpans(Aged(traces[|traces|..], cutoff)) == r
  {
  }

  /** Traces first seen at `cutoff` or before leave as they are. */
  function AfterFlush(s: Ledger, cutoff: int): Ledger {
    s.(traces := Young(s.traces, cutoff), emitted := s.emitted + AllSpans(Aged(s.traces, cutoff)))
  }

  class Buffer {
    /** The map of traces in insertion order. */
    var traces: seq<Trace>

    ghost var emitted: seq<nat>
    ghost var evicted: seq<nat>
    ghost var replaced: seq<nat>

    constructor ()
      ensures Current() == EMPTY
    {
      traces, emitted, evicted, replaced := [], [], [], [];
    }

    ghost function Current(): Ledger
      reads this
    {
      Ledger(traces, emitted, evicted, replaced)
    }

    method Find(runId: string) returns (i: nat)
      ensures i == IndexOf(traces, runId)
    {
      i := 0;
      while i < |traces| && traces[i].runId != runId
        invariant i <= |traces| && forall j :: 0 <= j < i ==> traces[j].runId != runId
      {
        i := i + 1;
      }
      IndexOfUnique(traces, runId, i);
    }

    /** Drops the trace whose first event is oldest; the earliest inserted one among equals. */
    method EvictOldest()
      requires traces != []
      modifies this`traces, this`evicted
      ensures traces == Without(old(traces), OldestIndex(old(traces)))
      ensures evicted == old(evicted) + old(traces)[OldestIndex(old(traces))].Spans()
    {
      hide OldestIndex;
      OldestStep(traces, 0);
      var k := 0;
      for j := 1 to |traces|
        invariant unchanged(this)
        invariant k < j && k == OldestIndex(traces[..j])
      {
        OldestStep(traces, j);
        if traces[j].firstEventTime < traces[k].firstEventTime {
          k := j;
        }
      }
      assert traces[..|traces|] == traces;
      evicted := evicted + traces[k].Spans();
      traces := Without(traces, k);
    }

    /** Finds the trace of a run, creating it if needed and evicting the oldest one at the limit. */
    method Open(runId: string, now: int) returns (i: nat)
      modifies this`traces, this`evicted
      ensures Current() == WithTrace(old(Current()), runId, now)
      ensures i == IndexOf(traces, runId) && i < |traces|
    {
      hide OldestIndex, IndexOf;
      i := Find(runId);
      if i < |traces| {
        return;
      }
      NewTraceIsLast(Current(), runId, now);
      if |traces| >= MAX_CONCURRENT_TRACES {
        EvictOldest();
      }
      i := |traces|;
      traces := traces + [Trace(runId, None, [], [], now)];
    }

    /** Takes out trace `i` and emits its spans. */
    method Emit(i: nat) returns (spans: seq<nat>)
      requires i < |traces|
      modifies this`traces, this`emitted
      ensures Current() == Emitted(old(Current()), i)
      ensures spans == old(traces)[i].Spans() && emitted == old(emitted) + spans
    {
      spans := traces[i].Spans();
      emitted := emitted + spans;
      traces := Without(traces, i);
    }

    method AddEvent(e: Event, now: int) returns (spans: seq<nat>)
      modifies this
      ensures Current() == AfterAdd(old(Current()), e, now)
      ensures emitted == old(emitted) + spans
    {
      hide IndexOf, WithTrace;
      var i := Open(e.runId, now);
      if e.kind == RunStarted {
        replaced := replaced + (if traces[i].rootSpan.Some? then [traces[i].rootSpan.value] else []);
        traces := traces[i := traces[i].(rootSpan := Some(e.id))];
        return [];
      }
      var trace := traces[i];
      if e.kind == RootAnnotation {
        trace := trace.(rootSpanEvents := trace.rootSpanEvents + [e.id]);
      }
      trace := trace.(childSpans := trace.childSpans + [e.id]);
      assert replaced == replaced + [];
      traces := traces[i := trace];
      spans := [];
      if e.kind == RunEnded {
        spans := Emit(i);
      }
    }

    /** Emits every trace whose first event is at least `timeoutMs` old, in insertion order. */
    method FlushTimedOut(now: int, timeoutMs: int) returns (result: seq<nat>)
      modifies this`traces, this`emitted
      ensures Current() == AfterFlush(old(Current()), now - timeoutMs)
      ensures emitted == old(emitted) + result
    {
      hide Young, Aged, AllSpans, Without;
      result := [];
      var i := 0;
      assert traces[0..] == traces && traces[..0] + Young(traces, now - timeoutMs) == Young(traces, now - timeoutMs);
      while i < |traces|
        invariant i <= |traces| && emitted == old(emitted) + result
        invariant traces[..i] + Young(traces[i..], now - timeoutMs) == Young(old(traces), now - timeoutMs)
        invariant result + AllSpans(Aged(traces[i..], now - timeoutMs)) == AllSpans(Aged(old(traces), now - timeoutMs))
        decreases |traces| - i
      {
        if now - traces[i].firstEventTime >= timeoutMs {
          FlushAgedStep(traces, i, now - timeoutMs, result);
          var spans := Emit(i);
          result := result + spans;
        } else {
          FlushYoungStep(traces, i, now - timeoutMs);
          i := i + 1;
        }
      }
      FlushEnd(traces, now - timeoutMs);
    }

    /** Shutdown: everything buffered is emitted, trace by trace, and nothing stays. */
    method FlushAll() returns (result: seq<nat>)
      modifies this`traces, this`emitted
      ensures traces == [] && emitted == old(emitted) + result
      ensures result == AllSpans(old(traces))
    {
      hide AllSpans, Without;
      result := [];
      AllSpansEnd();
      while traces != []
        invariant emitted == old(emitted) + result
        invariant result + AllSpans(traces) == AllSpans(old(traces))
        decreases |traces|
      {
        AllSpansStep(traces, result);
        var spans := Emit(0);
        result := result + spans;
      }
    }
  }
}
