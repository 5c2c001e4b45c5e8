/**
 The loop detector: a sliding window of recent calls per run (heuristic 1), error streaks per
 fingerprint (heuristic 2), and one shared "cooldown already sent" flag per fingerprint.

 The second half proves that this pruned, incremental state answers exactly as a reading of the
 whole unpruned history would.
 */
module LoopDetector {
  import opened Wrappers

  datatype LoopConfig = LoopConfig(
    enabled: bool,
    windowSeconds: nat,
    callThreshold: nat,
    errorThreshold: nat,
    cooldownMs: nat)

  const DEFAULT_CONFIG := LoopConfig(true, 120, 3, 3, 5000)

  /** The monotonic clock counts nanoseconds. */
  const NANOS_PER_SECOND := 1_000_000_000

  datatype LoopStatus =
    | Ok
    | CooldownWarning(fingerprint: string, count: nat)
    | LoopDetected(fingerprint: string, count: nat)

  datatype CallEntry = CallEntry(tool: string, argsHash: string, timestamp: int)

  datatype RunLoopState = RunLoopState(
    callHistory: seq<CallEntry>,
    errorStreaks: map<string, nat>,
    cooldownSent: map<string, bool>)

  const NEW_RUN := RunLoopState([], map[], map[])

  function Window(config: LoopConfig): int {
    config.windowSeconds * NANOS_PER_SECOND
  }

  function Fingerprint(tool: string, argsHash: string): string {
    tool + ":" + argsHash
  }

  /** Two calls share a fingerprint only if they are the same call or a hash contains a colon, which hex digests do not. */
  lemma FingerprintInjective(t1: string, h1: string, t2: string, h2: string)
    requires Fingerprint(t1, h1) == Fingerprint(t2, h2)
    ensures (t1 == t2 && h1 == h2) || ':' in h1 || ':' in h2
  {
    var f := Fingerprint(t1, h1);
    assert f[|t1|] == ':' && f[|t2|] == ':';
    if |t1| < |t2| {
      assert h1[|t2| - |t1| - 1] == f[|t2|];
    } else if |t2| < |t1| {
      assert h2[|t1| - |t2| - 1] == f[|t1|];
    } else {
      assert t1 == f[..|t1|] && t2 == f[..|t1|];
      assert h1 == f[|t1| + 1..] && h2 == f[|t1| + 1..];
    }
  }

  function Prune(h: seq<CallEntry>, now: int, window: int): seq<CallEntry> {
    if h != [] && now - h[0].timestamp > window then Prune(h[1..], now, window) else h
  }

  function CountIdentical(h: seq<CallEntry>, tool: string, argsHash: string): nat {
    if h == [] then 0
    else
      CountIdentical(h[..|h| - 1], tool, argsHash)
      + (if h[|h| - 1].tool == tool && h[|h| - 1].argsHash == argsHash then 1 else 0)
  }

  predicate AlreadyWarned(s: RunLoopState, fp: string) {
    fp in s.cooldownSent && s.cooldownSent[fp]
  }

  function StateOf(states: map<string, RunLoopState>, runId: string): RunLoopState {
    if runId in states then states[runId] else NEW_RUN
  }

  /** First trigger for a fingerprint cools down and is remembered; later triggers kill. */
  function Escalate(s: RunLoopState, fp: string, count: nat, threshold: nat): (RunLoopState, LoopStatus) {
    if count < threshold then (s, Ok)
    else if AlreadyWarned(s, fp) then (s, LoopDetected(fp, count))
    else (s.(cooldownSent := s.cooldownSent[fp := true]), CooldownWarning(fp, count))
  }

  function CheckRun(s: RunLoopState, tool: string, argsHash: string, now: int, config: LoopConfig)
    : (RunLoopState, LoopStatus)
  {
    var history := Prune(s.callHistory + [CallEntry(tool, argsHash, now)], now, Window(config));
    Escalate(s.(callHistory := history), Fingerprint(tool, argsHash),
             CountIdentical(history, tool, argsHash), config.callThreshold)
  }

  function StreakOf(s: RunLoopState, fp: string): nat {
    if fp in s.errorStreaks then s.errorStreaks[fp] else 0
  }

  function ErrorRun(s: RunLoopState, tool: string, argsHash: string, config: LoopConfig): (RunLoopState, LoopStatus) {
    var fp := Fingerprint(tool, argsHash);
    var count := StreakOf(s, fp) + 1;
    Escalate(s.(errorStreaks := s.errorStreaks[fp := count]), fp, count, config.errorThreshold)
  }

  /** The pruning loop: entries older than the window leave from the front. */
  method PruneWindow(pushed: seq<CallEntry>, now: int, window: int) returns (history: seq<CallEntry>)
    ensures history == Prune(pushed, now, window)
  {
    history := pushed;
    while |history| > 0 && now - history[0].timestamp > window
      invariant Prune(history, now, window) == Prune(pushed, now, window)
      decreases |history|
    {
      history := history[1..];
    }
  }

  method CountCalls(history: seq<CallEntry>, tool: string, argsHash: string) returns (identical: nat)
    ensures identical == CountIdentical(history, tool, argsHash)
  {
    identical := 0;
    for i := 0 to |history|
      invariant identical == CountIdentical(history[..i], tool, argsHash)
    {
      assert history[..i + 1][..i] == history[..i];
      if history[i].tool == tool && history[i].argsHash == argsHash {
        identical := identical + 1;
      }
    }
    assert history[..|history|] == history;
  }

  class Detector {
    var states: map<string, RunLoopState>

    constructor ()
      ensures states == map[]
    {
      states := map[];
    }

    method Check(runId: string, tool: string, argsHash: string, now: int, config: LoopConfig)
      returns (status: LoopStatus)
      modifies this
      ensures !config.enabled ==> status == Ok && states == old(states)
      ensures config.enabled ==>
                var (s, st) := CheckRun(StateOf(old(states), runId), tool, argsHash, now, config);
                states == old(states)[runId := s] && status == st
    {
      if !config.enabled {
        return Ok;
      }
      var state := if runId in states then states[runId] else NEW_RUN;
      var fingerprint := tool + ":" + argsHash;
      var history := PruneWindow(state.callHistory + [CallEntry(tool, argsHash, now)], now,
                                 config.windowSeconds * NANOS_PER_SECOND);
      state := state.(callHistory := history);
      var identical := CountCalls(history, tool, argsHash);
      if identical >= config.callThreshold {
        if fingerprint in state.cooldownSent && state.cooldownSent[fingerprint] {
          status := LoopDetected(fingerprint, identical);
        } else {
          state := state.(cooldownSent := state.cooldownSent[fingerprint := true]);
          status := CooldownWarning(fingerprint, identical);
        }
      } else {
        status := Ok;
      }
      states := states[runId := state];
    }

    method RecordError(runId: string, tool: string, argsHash: string, config: LoopConfig) returns (status: LoopStatus)
      modifies this
      ensures !config.enabled ==> status == Ok && states == old(states)
      ensures config.enabled ==>
                var (s, st) := ErrorRun(StateOf(old(states), runId), tool, argsHash, config);
                states == old(states)[runId := s] && status == st
    {
      if !config.enabled {
        return Ok;
      }
      var state := if runId in states then states[runId] else NEW_RUN;
      var fingerprint := tool + ":" + argsHash;
      var count := (if fingerprint in state.errorStreaks then state.errorStreaks[fingerprint] else 0) + 1;
      state := state.(errorStreaks := state.errorStreaks[fingerprint := count]);
      if count >= config.errorThreshold {
        if fingerprint in state.cooldownSent && state.cooldownSent[fingerprint] {
          status := LoopDetected(fingerprint, count);
        } else {
          state := state.(cooldownSent := state.cooldownSent[fingerprint := true]);
          status := CooldownWarning(fingerprint, count);
        }
      } else {
        status := Ok;
      }
      states := states[runId := state];
    }

    method RecordSuccess(runId: string, tool: string, argsHash: string)
      modifies this
      ensures states == SuccessRun(old(states), runId, tool, argsHash)
    {
      if runId in states {
        var state := states[runId];
        states := states[runId := state.(errorStreaks := state.errorStreaks - {tool + ":" + argsHash})];
      }
    }
  }

  function SuccessRun(states: map<string, RunLoopState>, runId: string, tool: string, argsHash: string)
    : map<string, RunLoopState>
  {
    if runId in states then
      states[runId := states[runId].(errorStreaks := states[runId].errorStreaks - {Fingerprint(tool, argsHash)})]
    else states
  }

  // ---------------------------------------------------------------------
  // Whole traces of an enabled detector
  // ---------------------------------------------------------------------

  datatype LoopOp =
    | CheckOp(runId: string, tool: string, argsHash: string, now: int)
    | ErrorOp(runId: string, tool: string, argsHash: string)
    | SuccessOp(runId: string, tool: string, argsHash: string)
  {
    function Key(): string { Fingerprint(tool, argsHash) }
  }

  /** One operation on the state of its own run. */
  function RunStep(config: LoopConfig, s: RunLoopState, op: LoopOp): (RunLoopState, LoopStatus) {
    match op
    case CheckOp(_, t, h, now) => CheckRun(s, t, h, now, config)
    case ErrorOp(_, t, h) => ErrorRun(s, t, h, config)
    case SuccessOp(_, t, h) => (s.(errorStreaks := s.errorStreaks - {Fingerprint(t, h)}), Ok)
  }

  /** One operation on the detector; a success of an unknown run changes nothing. */
  function Step(config: LoopConfig, states: map<string, RunLoopState>, op: LoopOp)
    : (map<string, RunLoopState>, LoopStatus)
  {
    var (s, st) := RunStep(config, StateOf(states, op.runId), op);
    (if op.SuccessOp? then SuccessRun(states, op.runId, op.tool, op.argsHash) else states[op.runId := s], st)
  }

  function After(config: LoopConfig, ops: seq<LoopOp>): map<string, RunLoopState> {
    if ops == [] then map[] else Step(config, After(config, Front(ops)), Last(ops)).0
  }

  /** The status answered to the last operation of the trace. */
  function Answer(config: LoopConfig, ops: seq<LoopOp>): LoopStatus
    requires ops != []
  {
    Step(config, After(config, Front(ops)), Last(ops)).1
  }

  /** All checks carry times that never go back. */
  ghost predicate Clocked(ops: seq<LoopOp>) {
    forall i, j :: 0 <= i < j < |ops| && ops[i].CheckOp? && ops[j].CheckOp? ==> ops[i].now <= ops[j].now
  }

  // The declarative reading of the whole history.

  /** Checked calls of this run with this tool and hash that are at most `window` old at `now`. */
  function CallsInWindow(ops: seq<LoopOp>, runId: string, tool: string, argsHash: string, now: int, window: int): nat {
    if ops == [] then 0
    else
      var op := Last(ops);
      CallsInWindow(Front(ops), runId, tool, argsHash, now, window)
      + (if op.CheckOp? && op.runId == runId && op.tool == tool && op.argsHash == argsHash
            && now - op.now <= window then 1 else 0)
  }

  /** Errors of this run with this fingerprint since its last success. */
  function ErrorsSinceSuccess(ops: seq<LoopOp>, runId: string, fp: string): nat {
    if ops == [] then 0
    else
      var op := Last(ops);
      if op.CheckOp? || op.runId != runId || op.Key() != fp then ErrorsSinceSuccess(Front(ops), runId, fp)
      else if op.ErrorOp? then ErrorsSinceSuccess(Front(ops), runId, fp) + 1
      else 0
  }

  /** Some earlier operation of this run with this fingerprint was answered with a trigger. */
  predicate TriggeredBefore(config: LoopConfig, ops: seq<LoopOp>, runId: string, fp: string) {
    ops != [] && (
      || TriggeredBefore(config, Front(ops), runId, fp)
      || (Last(ops).runId == runId && Last(ops).Key() == fp && Answer(config, ops) != Ok))
  }

  /** The count that the last operation is judged by, over the whole history. */
  function HistoricalCount(config: LoopConfig, ops: seq<LoopOp>): nat
    requires ops != []
  {
    match Last(ops)
    case CheckOp(r, t, h, now) => CallsInWindow(ops, r, t, h, now, Window(config))
    case ErrorOp(r, t, h) => ErrorsSinceSuccess(ops, r, Fingerprint(t, h))
    case SuccessOp(_, _, _) => 0
  }

  function Threshold(config: LoopConfig, op: LoopOp): nat {
    if op.CheckOp? then config.callThreshold else config.errorThreshold
  }

  function Judge(fp: string, count: nat, threshold: nat, warned: bool): LoopStatus {
    if count < threshold then Ok else if warned then LoopDetected(fp, count) else CooldownWarning(fp, count)
  }

  function HistoricalAnswer(config: LoopConfig, ops: seq<LoopOp>): LoopStatus
    requires ops != []
  {
    var op := Last(ops);
    if op.SuccessOp? then Ok
    else Judge(op.Key(), HistoricalCount(config, ops), Threshold(config, op),
               TriggeredBefore(config, Front(ops), op.runId, op.Key()))
  }

  // The simulation between the pruned state and the history.

  function CountRecent(h: seq<CallEntry>, tool: string, argsHash: string, now: int, window: int): nat {
    if h == [] then 0
    else
      CountRecent(h[..|h| - 1], tool, argsHash, now, window)
      + (if h[|h| - 1].tool == tool && h[|h| - 1].argsHash == argsHash
            && now - h[|h| - 1].timestamp <= window then 1 else 0)
  }

  lemma {:induction false} CountRecentDropOld(h: seq<CallEntry>, tool: string, argsHash: string, now: int, window: int)
    requires h != [] && now - h[0].timestamp > window
    ensures CountRecent(h, tool, argsHash, now, window) == CountRecent(h[1..], tool, argsHash, now, window)
  {
    if |h| > 1 {
      CountRecentDropOld(h[..|h| - 1], tool, argsHash, now, window);
      assert h[1..][..|h| - 2] == h[..|h| - 1][1..];
    }
  }

  lemma {:induction false} PruneKeepsRecent(
      h: seq<CallEntry>, tool: string, argsHash: string, now: int, later: int, window: int)
    requires now <= later
    ensures CountRecent(Prune(h, now, window), tool, argsHash, later, window) == CountRecent(h, tool, argsHash, later, window)
    decreases |h|
  {
    if h != [] && now - h[0].timestamp > window {
      CountRecentDropOld(h, tool, argsHash, later, window);
      PruneKeepsRecent(h[1..], tool, argsHash, now, later, window);
    }
  }

  ghost predicate SortedByTime(h: seq<CallEntry>) {
    forall i, j :: 0 <= i < j < |h| ==> h[i].timestamp <= h[j].timestamp
  }

  ghost predicate AllWithin(h: seq<CallEntry>, now: int, window: int) {
    forall i :: 0 <= i < |h| ==> now - h[i].timestamp <= window
  }

  lemma PrunedIsRecent(h: seq<CallEntry>, now: int, window: int)
    requires SortedByTime(h)
    ensures AllWithin(Prune(h, now, window), now, window)
  {
    PruneStops(h, now, window);
    SuffixIsRecent(h, Prune(h, now, window), now, window);
  }

  lemma SuffixIsRecent(h: seq<CallEntry>, p: seq<CallEntry>, now: int, window: int)
    requires SortedByTime(h) && |p| <= |h| && p == h[|h| - |p|..]
    requires p != [] ==> now - p[0].timestamp <= window
    ensures AllWithin(p, now, window)
  {
    forall i | 0 <= i < |p|
      ensures now - p[i].timestamp <= window
    {
      assert p[0] == h[|h| - |p|] && p[i] == h[|h| - |p| + i];
    }
  }

  /** Pruning keeps a suffix whose first entry is within the window. */
  lemma {:induction false} PruneStops(h: seq<CallEntry>, now: int, window: int)
    ensures var p := Prune(h, now, window);
            |p| <= |h| && p == h[|h| - |p|..] && (p != [] ==> now - p[0].timestamp <= window)
    decreases |h|
  {
    if h != [] && now - h[0].timestamp > window {
      PruneStops(h[1..], now, window);
    }
  }

  lemma {:induction false} AllRecent(h: seq<CallEntry>, tool: string, argsHash: string, now: int, window: int)
    requires AllWithin(h, now, window)
    ensures CountRecent(h, tool, argsHash, now, window) == CountIdentical(h, tool, argsHash)
  {
    if h != [] {
      AllRecent(h[..|h| - 1], tool, argsHash, now, window);
    }
  }

  /** The latest check time of the trace, if any. */
  ghost predicate NotBefore(ops: seq<LoopOp>, now: int) {
    forall i :: 0 <= i < |ops| && ops[i].CheckOp? ==> ops[i].now <= now
  }

  ghost predicate WindowAgrees(deque: seq<CallEntry>, ops: seq<LoopOp>, runId: string, window: int) {
    forall t: string, h: string, now: int {:trigger CallsInWindow(ops, runId, t, h, now, window)} :: NotBefore(ops, now) ==>
      CountRecent(deque, t, h, now, window) == CallsInWindow(ops, runId, t, h, now, window)
  }

  ghost predicate FlagsAgree(config: LoopConfig, s: RunLoopState, ops: seq<LoopOp>, runId: string) {
    && (forall fp: string :: StreakOf(s, fp) == ErrorsSinceSuccess(ops, runId, fp))
    && (forall fp: string :: AlreadyWarned(s, fp) <==> TriggeredBefore(config, ops, runId, fp))
  }

  ghost predicate TimesAgree(deque: seq<CallEntry>, ops: seq<LoopOp>) {
    && SortedByTime(deque)
    && (forall now :: NotBefore(ops, now) ==> forall i :: 0 <= i < |deque| ==> deque[i].timestamp <= now)
  }

  ghost predicate Simulates(config: LoopConfig, s: RunLoopState, ops: seq<LoopOp>, runId: string) {
    && TimesAgree(s.callHistory, ops)
    && WindowAgrees(s.callHistory, ops, runId, Window(config))
    && FlagsAgree(config, s, ops, runId)
  }

  /** The deque after `check` pushes the call and prunes. */
  function Pushed(deque: seq<CallEntry>, op: LoopOp): seq<CallEntry>
    requires op.CheckOp?
  {
    deque + [CallEntry(op.tool, op.argsHash, op.now)]
  }

  lemma PushedIsSorted(deque: seq<CallEntry>, ops: seq<LoopOp>, op: LoopOp)
    requires op.CheckOp? && TimesAgree(deque, ops) && NotBefore(ops, op.now)
    ensures SortedByTime(Pushed(deque, op))
  {
  }

  lemma SuffixKeepsTimes(deque: seq<CallEntry>, ops: seq<LoopOp>, op: LoopOp, p: seq<CallEntry>)
    requires op.CheckOp? && TimesAgree(deque, ops) && NotBefore(ops, op.now)
    requires |p| <= |deque| + 1 && p == Pushed(deque, op)[|deque| + 1 - |p|..]
    ensures TimesAgree(p, ops + [op])
  {
    PushedIsSorted(deque, ops, op);
    forall now | NotBefore(ops + [op], now)
      ensures forall i :: 0 <= i < |p| ==> p[i].timestamp <= now
    {
      assert (ops + [op])[|ops|] == op;
      NotBeforeFront(ops, op, now);
    }
  }

  lemma PushKeepsWindow(deque: seq<CallEntry>, ops: seq<LoopOp>, op: LoopOp, window: int)
    requires op.CheckOp?
    requires WindowAgrees(deque, ops, op.runId, window)
    ensures WindowAgrees(Prune(Pushed(deque, op), op.now, window), ops + [op], op.runId, window)
  {
    var all := ops + [op];
    var pushed := Pushed(deque, op);
    assert Front(all) == ops && Last(all) == op;
    assert pushed[..|pushed| - 1] == deque;
    forall t: string, h: string, now: int | NotBefore(all, now)
      ensures CountRecent(Prune(pushed, op.now, window), t, h, now, window) == CallsInWindow(all, op.runId, t, h, now, window)
    {
      assert all[|ops|] == op;
      NotBeforeFront(ops, op, now);
      assert CountRecent(deque, t, h, now, window) == CallsInWindow(ops, op.runId, t, h, now, window);
      PruneKeepsRecent(pushed, t, h, op.now, now, window);
    }
  }

  lemma NotBeforeFront(ops: seq<LoopOp>, op: LoopOp, now: int)
    requires NotBefore(ops + [op], now)
    ensures NotBefore(ops, now)
  {
    forall i | 0 <= i < |ops| && ops[i].CheckOp?
      ensures ops[i].now <= now
    {
      assert (ops + [op])[i] == ops[i];
    }
  }

  /** An operation that is not a check of this run leaves the window reading of the run alone. */
  lemma OtherOpKeepsWindow(deque: seq<CallEntry>, ops: seq<LoopOp>, op: LoopOp, runId: string, window: int)
    requires !op.CheckOp? || op.runId != runId
    requires TimesAgree(deque, ops) && WindowAgrees(deque, ops, runId, window)
    ensures TimesAgree(deque, ops + [op]) && WindowAgrees(deque, ops + [op], runId, window)
  {
    var all := ops + [op];
    assert Front(all) == ops && Last(all) == op;
    forall now | NotBefore(all, now)
      ensures NotBefore(ops, now)
    {
      NotBeforeFront(ops, op, now);
    }
    forall t: string, h: string, now: int | NotBefore(all, now)
      ensures CountRecent(deque, t, h, now, window) == CallsInWindow(all, runId, t, h, now, window)
    {
      assert CountRecent(deque, t, h, now, window) == CallsInWindow(ops, runId, t, h, now, window);
    }
  }

  /** The count that `check` reads from the pruned deque is the count over the whole history. */
  lemma CheckCountsHistory(deque: seq<CallEntry>, ops: seq<LoopOp>, op: LoopOp, window: int)
    requires op.CheckOp? && NotBefore(ops, op.now)
    requires TimesAgree(deque, ops) && WindowAgrees(deque, ops, op.runId, window)
    ensures CountIdentical(Prune(Pushed(deque, op), op.now, window), op.tool, op.argsHash)
            == CallsInWindow(ops + [op], op.runId, op.tool, op.argsHash, op.now, window)
  {
    var p := Prune(Pushed(deque, op), op.now, window);
    PushedIsSorted(deque, ops, op);
    PushKeepsWindow(deque, ops, op, window);
    PrunedIsRecent(Pushed(deque, op), op.now, window);
    AllRecent(p, op.tool, op.argsHash, op.now, window);
    assert NotBefore(ops + [op], op.now);
    assert CountRecent(p, op.tool, op.argsHash, op.now, window)
        == CallsInWindow(ops + [op], op.runId, op.tool, op.argsHash, op.now, window);
  }

  lemma StateAfter(config: LoopConfig, ops: seq<LoopOp>, runId: string)
    requires ops != []
    ensures var s := StateOf(After(config, Front(ops)), runId);
            StateOf(After(config, ops), runId) == if Last(ops).runId == runId then RunStep(config, s, Last(ops)).0 else s
  {
    assert NEW_RUN.errorStreaks - {Last(ops).Key()} == map[];
  }

  lemma AnswerIs(config: LoopConfig, ops: seq<LoopOp>)
    requires ops != []
    ensures Answer(config, ops) == RunStep(config, StateOf(After(config, Front(ops)), Last(ops).runId), Last(ops)).1
  {
  }

  lemma EscalateFlags(s: RunLoopState, key: string, count: nat, threshold: nat, fp: string)
    ensures var (s', st) := Escalate(s, key, count, threshold);
            && s'.callHistory == s.callHistory && s'.errorStreaks == s.errorStreaks
            && (AlreadyWarned(s', fp) <==> AlreadyWarned(s, fp) || (fp == key && st != Ok))
  {
  }

  /** What one operation does to the streak and the warning flag of any fingerprint. */
  lemma RunStepFlags(config: LoopConfig, s: RunLoopState, op: LoopOp, fp: string)
    ensures var (s', st) := RunStep(config, s, op);
            && (AlreadyWarned(s', fp) <==> AlreadyWarned(s, fp) || (fp == op.Key() && st != Ok))
            && StreakOf(s', fp) == if op.CheckOp? || fp != op.Key() then StreakOf(s, fp)
                                   else if op.ErrorOp? then StreakOf(s, fp) + 1 else 0
  {
    var key := op.Key();
    match op
    case CheckOp(_, t, h, now) =>
      var history := Prune(s.callHistory + [CallEntry(t, h, now)], now, Window(config));
      EscalateFlags(s.(callHistory := history), key, CountIdentical(history, t, h), config.callThreshold, fp);
    case ErrorOp(_, t, h) =>
      var n := StreakOf(s, key) + 1;
      EscalateFlags(s.(errorStreaks := s.errorStreaks[key := n]), key, n, config.errorThreshold, fp);
    case SuccessOp(_, t, h) =>
  }

  lemma StepKeepsFlags(config: LoopConfig, ops: seq<LoopOp>, runId: string)
    requires ops != []
    requires FlagsAgree(config, StateOf(After(config, Front(ops)), runId), Front(ops), runId)
    ensures FlagsAgree(config, StateOf(After(config, ops), runId), ops, runId)
  {
    var s, s' := StateOf(After(config, Front(ops)), runId), StateOf(After(config, ops), runId);
    StateAfter(config, ops, runId);
    forall fp: string
      ensures StreakOf(s', fp) == ErrorsSinceSuccess(ops, runId, fp)
      ensures AlreadyWarned(s', fp) <==> TriggeredBefore(config, ops, runId, fp)
    {
      RunStepFlags(config, s, Last(ops), fp);
      assert StreakOf(s, fp) == ErrorsSinceSuccess(Front(ops), runId, fp);
      assert AlreadyWarned(s, fp) <==> TriggeredBefore(config, Front(ops), runId, fp);
    }
  }

  lemma ClockedFront(ops: seq<LoopOp>)
    requires ops != [] && Clocked(ops)
    ensures Clocked(Front(ops))
    ensures Last(ops).CheckOp? ==> NotBefore(Front(ops), Last(ops).now)
  {
  }

  lemma RunStepDeque(config: LoopConfig, s: RunLoopState, op: LoopOp)
    ensures RunStep(config, s, op).0.callHistory
            == if op.CheckOp? then Prune(Pushed(s.callHistory, op), op.now, Window(config)) else s.callHistory
  {
  }

  lemma DequeStep(deque: seq<CallEntry>, deque': seq<CallEntry>, ops: seq<LoopOp>, op: LoopOp, runId: string, window: int)
    requires TimesAgree(deque, ops) && WindowAgrees(deque, ops, runId, window)
    requires op.CheckOp? ==> NotBefore(ops, op.now)
    requires deque' == if op.CheckOp? && op.runId == runId then Prune(Pushed(deque, op), op.now, window) else deque
    ensures TimesAgree(deque', ops + [op]) && WindowAgrees(deque', ops + [op], runId, window)
  {
    if op.CheckOp? && op.runId == runId {
      PruneStops(Pushed(deque, op), op.now, window);
      SuffixKeepsTimes(deque, ops, op, deque');
      PushKeepsWindow(deque, ops, op, window);
    } else {
      OtherOpKeepsWindow(deque, ops, op, runId, window);
    }
  }

  lemma {:induction false} DequeHolds(config: LoopConfig, ops: seq<LoopOp>, runId: string)
    requires Clocked(ops)
    ensures var deque := StateOf(After(config, ops), runId).callHistory;
            TimesAgree(deque, ops) && WindowAgrees(deque, ops, runId, Window(config))
    decreases |ops|
  {
    if ops != [] {
      ClockedFront(ops);
      DequeHolds(config, Front(ops), runId);
      assert ops == Front(ops) + [Last(ops)];
      var s := StateOf(After(config, Front(ops)), runId);
      StateAfter(config, ops, runId);
      RunStepDeque(config, s, Last(ops));
      DequeStep(s.callHistory, StateOf(After(config, ops), runId).callHistory, Front(ops), Last(ops), runId, Window(config));
    }
  }

  lemma {:induction false} FlagsHold(config: LoopConfig, ops: seq<LoopOp>, runId: string)
    ensures FlagsAgree(config, StateOf(After(config, ops), runId), ops, runId)
    decreases |ops|
  {
    if ops != [] {
      FlagsHold(config, Front(ops), runId);
      StepKeepsFlags(config, ops, runId);
    }
  }

  lemma SimulationHolds(config: LoopConfig, ops: seq<LoopOp>, runId: string)
    requires Clocked(ops)
    ensures Simulates(config, StateOf(After(config, ops), runId), ops, runId)
  {
    DequeHolds(config, ops, runId);
    FlagsHold(config, ops, runId);
  }

  /** The count that an operation is judged by, read from the live state. */
  function LiveCount(config: LoopConfig, s: RunLoopState, op: LoopOp): nat {
    match op
    case CheckOp(_, t, h, now) => CountIdentical(Prune(Pushed(s.callHistory, op), now, Window(config)), t, h)
    case ErrorOp(_, _, _) => StreakOf(s, op.Key()) + 1
    case SuccessOp(_, _, _) => 0
  }

  lemma RunStepJudges(config: LoopConfig, s: RunLoopState, op: LoopOp)
    ensures RunStep(config, s, op).1
            == if op.SuccessOp? then Ok
               else Judge(op.Key(), LiveCount(config, s, op), Threshold(config, op), AlreadyWarned(s, op.Key()))
  {
  }

  lemma LiveCountIsHistorical(config: LoopConfig, s: RunLoopState, ops: seq<LoopOp>, op: LoopOp)
    requires Simulates(config, s, ops, op.runId)
    requires op.CheckOp? ==> NotBefore(ops, op.now)
    ensures LiveCount(config, s, op) == HistoricalCount(config, ops + [op])
  {
    hide TriggeredBefore, Prune, CountIdentical;
    var all := ops + [op];
    assert Front(all) == ops && Last(all) == op;
    if op.CheckOp? {
      CheckCountsHistory(s.callHistory, ops, op, Window(config));
    } else {
      assert StreakOf(s, op.Key()) == ErrorsSinceSuccess(ops, op.runId, op.Key());
    }
  }

  /** The same comparison on the state of one run, whatever trace led to it. */
  lemma RunStepIsHistorical(config: LoopConfig, s: RunLoopState, ops: seq<LoopOp>, op: LoopOp)
    requires Simulates(config, s, ops, op.runId)
    requires op.CheckOp? ==> NotBefore(ops, op.now)
    ensures RunStep(config, s, op).1 == HistoricalAnswer(config, ops + [op])
  {
    hide RunStep, LiveCount, HistoricalCount, TriggeredBefore;
    assert Front(ops + [op]) == ops && Last(ops + [op]) == op;
    LiveCountIsHistorical(config, s, ops, op);
    RunStepJudges(config, s, op);
    assert AlreadyWarned(s, op.Key()) <==> TriggeredBefore(config, ops, op.runId, op.Key());
  }

  /**
   Main result: for every interleaving of runs and a clock that never goes back, each answer is the
   declarative one. A trigger happens exactly when the unpruned count reaches its threshold; the
   first trigger of a fingerprint in a run, by either heuristic, is a cooldown and all later ones
   are kills.
   */
  lemma AnswersAreHistorical(config: LoopConfig, ops: seq<LoopOp>)
    requires ops != [] && Clocked(ops)
    ensures Answer(config, ops) == HistoricalAnswer(config, ops)
  {
    hide After, Answer, HistoricalAnswer, RunStep, Simulates, Clocked, NotBefore;
    ClockedFront(ops);
    var s := StateOf(After(config, Front(ops)), Last(ops).runId);
    SimulationHolds(config, Front(ops), Last(ops).runId);
    RunStepIsHistorical(config, s, Front(ops), Last(ops));
    assert ops == Front(ops) + [Last(ops)];
    AnswerIs(config, ops);
  }

  ghost predicate TriggeredAt(config: LoopConfig, ops: seq<LoopOp>, i: nat, runId: string, fp: string)
    requires i < |ops|
  {
    ops[i].runId == runId && ops[i].Key() == fp && Answer(config, ops[..i + 1]) != Ok
  }

  lemma TriggeredAtFront(config: LoopConfig, ops: seq<LoopOp>, i: nat, runId: string, fp: string)
    requires i < |ops| - 1
    ensures TriggeredAt(config, ops, i, runId, fp) == TriggeredAt(config, Front(ops), i, runId, fp)
  {
    assert Front(ops)[..i + 1] == ops[..i + 1];
  }

  lemma TriggeredBeforeUnfolds(config: LoopConfig, ops: seq<LoopOp>, runId: string, fp: string)
    requires ops != []
    ensures TriggeredBefore(config, ops, runId, fp)
       <==> TriggeredBefore(config, Front(ops), runId, fp) || TriggeredAt(config, ops, |ops| - 1, runId, fp)
  {
    assert ops[..|ops|] == ops;
  }

  lemma {:induction false} TriggerIsRemembered(config: LoopConfig, ops: seq<LoopOp>, i: nat, runId: string, fp: string)
    requires i < |ops| && TriggeredAt(config, ops, i, runId, fp)
    ensures TriggeredBefore(config, ops, runId, fp)
    decreases |ops|
  {
    hide TriggeredBefore, TriggeredAt, Answer, After;
    if i < |ops| - 1 {
      TriggeredAtFront(config, ops, i, runId, fp);
      TriggerIsRemembered(config, Front(ops), i, runId, fp);
    }
    TriggeredBeforeUnfolds(config, ops, runId, fp);
  }

  lemma NothingTriggeredYet(config: LoopConfig, runId: string, fp: string)
    ensures !TriggeredBefore(config, [], runId, fp)
  {
  }

  lemma {:induction false} RememberedTrigger(config: LoopConfig, ops: seq<LoopOp>, runId: string, fp: string) returns (i: nat)
    requires TriggeredBefore(config, ops, runId, fp)
    ensures i < |ops| && TriggeredAt(config, ops, i, runId, fp)
    decreases |ops|
  {
    hide TriggeredBefore, TriggeredAt, Answer, After;
    NothingTriggeredYet(config, runId, fp);
    TriggeredBeforeUnfolds(config, ops, runId, fp);
    if TriggeredAt(config, ops, |ops| - 1, runId, fp) {
      i := |ops| - 1;
    } else {
      i := RememberedTrigger(config, Front(ops), runId, fp);
      TriggeredAtFront(config, ops, i, runId, fp);
    }
  }

  /**
   Cooldown then kill: a trigger is a cooldown exactly when no operation before it in the same run
   with the same fingerprint triggered; otherwise it is a kill. Both heuristics share the rule.
   */
  lemma CooldownThenKill(config: LoopConfig, ops: seq<LoopOp>)
    requires ops != [] && Answer(config, ops) != Ok
    ensures Answer(config, ops).CooldownWarning?
       <==> forall i: nat :: i < |ops| - 1 ==> !TriggeredAt(config, Front(ops), i, Last(ops).runId, Last(ops).Key())
    ensures Answer(config, ops).CooldownWarning? || Answer(config, ops).LoopDetected?
  {
    hide TriggeredBefore, TriggeredAt, Answer;
    TriggeredLast(config, ops);
    var before, runId, fp := Front(ops), Last(ops).runId, Last(ops).Key();
    if TriggeredBefore(config, before, runId, fp) {
      var i := RememberedTrigger(config, before, runId, fp);
    }
    forall i: nat | i < |before| && TriggeredAt(config, before, i, runId, fp)
      ensures TriggeredBefore(config, before, runId, fp)
    {
      TriggerIsRemembered(config, before, i, runId, fp);
    }
  }

  /** On a clock that never goes back, a trigger is a count over the full history that reaches its threshold. */
  lemma TriggeredMeans(config: LoopConfig, ops: seq<LoopOp>, i: nat, runId: string, fp: string)
    requires i < |ops| && Clocked(ops)
    ensures TriggeredAt(config, ops, i, runId, fp)
       <==> && ops[i].runId == runId && ops[i].Key() == fp && !ops[i].SuccessOp?
            && HistoricalCount(config, ops[..i + 1]) >= Threshold(config, ops[i])
  {
    hide Answer, HistoricalCount, TriggeredBefore;
    assert Last(ops[..i + 1]) == ops[i] && Clocked(ops[..i + 1]);
    AnswersAreHistorical(config, ops[..i + 1]);
  }

  /** The flag that decides between the two, on any clock. */
  lemma TriggeredLast(config: LoopConfig, ops: seq<LoopOp>)
    requires ops != [] && Answer(config, ops) != Ok
    ensures Answer(config, ops).LoopDetected?
       <==> TriggeredBefore(config, Front(ops), Last(ops).runId, Last(ops).Key())
    ensures Answer(config, ops).LoopDetected? || Answer(config, ops).CooldownWarning?
  {
    hide TriggeredBefore, After, Answer, RunStep, LiveCount;
    var op, before := Last(ops), Front(ops);
    var s := StateOf(After(config, before), op.runId);
    FlagsHold(config, before, op.runId);
    AnswerIs(config, ops);
    RunStepJudges(config, s, op);
    assert AlreadyWarned(s, op.Key()) <==> TriggeredBefore(config, before, op.runId, op.Key());
  }
}
