/** The engine's budget tracker: four running totals per run, checked against soft and hard caps. */
module Budget {
  import opened Wrappers

  datatype FloatDimension = FloatDimension(soft: Option<real>, hard: real)
  datatype IntDimension = IntDimension(soft: Option<nat>, hard: nat)

  datatype BudgetConfig = BudgetConfig(
    costUsd: Option<FloatDimension>,
    inputTokens: Option<IntDimension>,
    outputTokens: Option<IntDimension>,
    callCount: Option<IntDimension>)

  /** The running totals of one run. */
  datatype BudgetState = BudgetState(runId: string, costUsd: real, inputTokens: nat, outputTokens: nat, callCount: nat)

  datatype BudgetUpdate = BudgetUpdate(costUsd: real, inputTokens: nat, outputTokens: nat)

  datatype BudgetStatus =
    | Ok
    | SoftCapWarning(dimension: string, current: real, cap: real)
    | HardCapExceeded(dimension: string, current: real, cap: real)

  function Zero(runId: string): BudgetState {
    BudgetState(runId, 0.0, 0, 0, 0)
  }

  function Plus(s: BudgetState, u: BudgetUpdate): BudgetState {
    BudgetState(s.runId, s.costUsd + u.costUsd, s.inputTokens + u.inputTokens,
                s.outputTokens + u.outputTokens, s.callCount + 1)
  }

  // What the caps mean, one dimension at a time.

  predicate OverHardFloat(current: real, dim: Option<FloatDimension>) {
    dim.Some? && current > dim.value.hard
  }

  predicate OverHardInt(current: nat, dim: Option<IntDimension>) {
    dim.Some? && current > dim.value.hard
  }

  predicate OverSoftFloat(current: real, dim: Option<FloatDimension>) {
    dim.Some? && dim.value.soft.Some? && current > dim.value.soft.value
  }

  predicate OverSoftInt(current: nat, dim: Option<IntDimension>) {
    dim.Some? && dim.value.soft.Some? && current > dim.value.soft.value
  }

  /** Some configured dimension is past its hard cap. */
  predicate OverHard(s: BudgetState, c: BudgetConfig) {
    || OverHardFloat(s.costUsd, c.costUsd)
    || OverHardInt(s.inputTokens, c.inputTokens)
    || OverHardInt(s.outputTokens, c.outputTokens)
    || OverHardInt(s.callCount, c.callCount)
  }

  predicate OverSoft(s: BudgetState, c: BudgetConfig) {
    || OverSoftFloat(s.costUsd, c.costUsd)
    || OverSoftInt(s.inputTokens, c.inputTokens)
    || OverSoftInt(s.outputTokens, c.outputTokens)
    || OverSoftInt(s.callCount, c.callCount)
  }

  /** With no configuration nothing is ever exceeded. */
  predicate Exceeded(s: BudgetState, c: Option<BudgetConfig>) {
    c.Some? && OverHard(s, c.value)
  }

  // The checks as the tracker performs them.

  function CheckFloat(name: string, current: real, dim: Option<FloatDimension>): (r: BudgetStatus)
    ensures r.HardCapExceeded? <==> OverHardFloat(current, dim)
    ensures r.SoftCapWarning? <==> OverSoftFloat(current, dim) && !OverHardFloat(current, dim)
  {
    if dim.None? then Ok
    else if current > dim.value.hard then HardCapExceeded(name, current, dim.value.hard)
    else if dim.value.soft.Some? && current > dim.value.soft.value then
      SoftCapWarning(name, current, dim.value.soft.value)
    else Ok
  }

  function CheckInt(name: string, current: nat, dim: Option<IntDimension>): (r: BudgetStatus)
    ensures r.HardCapExceeded? <==> OverHardInt(current, dim)
    ensures r.SoftCapWarning? <==> OverSoftInt(current, dim) && !OverHardInt(current, dim)
  {
    if dim.None? then Ok
    else if current > dim.value.hard then HardCapExceeded(name, current as real, dim.value.hard as real)
    else if dim.value.soft.Some? && current > dim.value.soft.value then
      SoftCapWarning(name, current as real, dim.value.soft.value as real)
    else Ok
  }

  function WorseStatus(a: BudgetStatus, b: BudgetStatus): (r: BudgetStatus)
    ensures r.HardCapExceeded? <==> a.HardCapExceeded? || b.HardCapExceeded?
    ensures r.Ok? <==> a.Ok? && b.Ok?
  {
    match (a, b)
    case (HardCapExceeded(_, _, _), _) => a
    case (_, HardCapExceeded(_, _, _)) => b
    case (SoftCapWarning(_, _, _), _) => a
    case (_, SoftCapWarning(_, _, _)) => b
    case _ => Ok
  }

  /** The worst status over all dimensions, in the order the tracker visits them. */
  function StatusOf(s: BudgetState, config: Option<BudgetConfig>): (r: BudgetStatus)
    ensures r.HardCapExceeded? <==> Exceeded(s, config)
    ensures r.SoftCapWarning? <==> config.Some? && OverSoft(s, config.value) && !OverHard(s, config.value)
  {
    if config.None? then Ok
    else
      var c := config.value;
      var w := WorseStatus(Ok, CheckFloat("cost_usd", s.costUsd, c.costUsd));
      var w := WorseStatus(w, CheckInt("input_tokens", s.inputTokens, c.inputTokens));
      var w := WorseStatus(w, CheckInt("output_tokens", s.outputTokens, c.outputTokens));
      WorseStatus(w, CheckInt("call_count", s.callCount, c.callCount))
  }

  /** The early-return pre-check on hard caps alone. */
  function FirstHardCap(s: BudgetState, c: BudgetConfig): (r: Option<BudgetStatus>)
    ensures r.Some? <==> OverHard(s, c)
    ensures r.Some? ==> r.value.HardCapExceeded?
  {
    if OverHardFloat(s.costUsd, c.costUsd) then
      Some(HardCapExceeded("cost_usd", s.costUsd, c.costUsd.value.hard))
    else if OverHardInt(s.inputTokens, c.inputTokens) then
      Some(HardCapExceeded("input_tokens", s.inputTokens as real, c.inputTokens.value.hard as real))
    else if OverHardInt(s.outputTokens, c.outputTokens) then
      Some(HardCapExceeded("output_tokens", s.outputTokens as real, c.outputTokens.value.hard as real))
    else if OverHardInt(s.callCount, c.callCount) then
      Some(HardCapExceeded("call_count", s.callCount as real, c.callCount.value.hard as real))
    else None
  }

  /** Folding every dimension and returning at the first exceeded one report the same cap. */
  lemma WorstStatusIsFirstHardCap(s: BudgetState, c: BudgetConfig)
    ensures FirstHardCap(s, c) == if StatusOf(s, Some(c)).HardCapExceeded? then Some(StatusOf(s, Some(c))) else None
  {
  }

  /** The call brings the cost back under its cap, and no other dimension is over. */
  predicate Revives(s: BudgetState, u: BudgetUpdate, config: Option<BudgetConfig>) {
    && config.Some? && config.value.costUsd.Some?
    && s.costUsd + u.costUsd <= config.value.costUsd.value.hard < s.costUsd
    && !OverHardInt(s.inputTokens + u.inputTokens, config.value.inputTokens)
    && !OverHardInt(s.outputTokens + u.outputTokens, config.value.outputTokens)
    && !OverHardInt(s.callCount + 1, config.value.callCount)
  }

  /** An exceeded budget is left only that way, since tokens and calls never fall. */
  lemma RevivesExactlyWhen(s: BudgetState, u: BudgetUpdate, c: Option<BudgetConfig>)
    requires Exceeded(s, c)
    ensures Exceeded(Plus(s, u), c) <==> !Revives(s, u, c)
  {
  }

  /** With a non-negative cost an exceeded budget stays exceeded. */
  lemma ExceededIsStable(s: BudgetState, u: BudgetUpdate, c: Option<BudgetConfig>)
    requires u.costUsd >= 0.0
    requires Exceeded(s, c)
    ensures Exceeded(Plus(s, u), c)
  {
    RevivesExactlyWhen(s, u, c);
  }

  function StateOf(states: map<string, BudgetState>, runId: string): BudgetState {
    if runId in states then states[runId] else Zero(runId)
  }

  class BudgetTracker {
    var states: map<string, BudgetState>

    constructor ()
      ensures states == map[]
    {
      states := map[];
    }

    method Record(runId: string, update: BudgetUpdate, config: Option<BudgetConfig>) returns (worst: BudgetStatus)
      modifies this
      ensures states == old(states)[runId := Plus(StateOf(old(states), runId), update)]
      ensures worst == StatusOf(states[runId], config)
    {
      var state := if runId in states then states[runId] else Zero(runId);
      state := state.(costUsd := state.costUsd + update.costUsd);
      state := state.(inputTokens := state.inputTokens + update.inputTokens);
      state := state.(outputTokens := state.outputTokens + update.outputTokens);
      state := state.(callCount := state.callCount + 1);
      states := states[runId := state];
      if config.None? {
        return Ok;
      }
      var c := config.value;
      worst := Ok;
      if c.costUsd.Some? {
        worst := WorseStatus(worst, CheckFloat("cost_usd", state.costUsd, c.costUsd));
      }
      if c.inputTokens.Some? {
        worst := WorseStatus(worst, CheckInt("input_tokens", state.inputTokens, c.inputTokens));
      }
      if c.outputTokens.Some? {
        worst := WorseStatus(worst, CheckInt("output_tokens", state.outputTokens, c.outputTokens));
      }
      if c.callCount.Some? {
        worst := WorseStatus(worst, CheckInt("call_count", state.callCount, c.callCount));
      }
    }

    method CheckHardCaps(runId: string, config: BudgetConfig) returns (r: Option<BudgetStatus>)
      ensures r == if runId in states then FirstHardCap(states[runId], config) else None
    {
      if runId !in states {
        return None;
      }
      var state := states[runId];
      if config.costUsd.Some? && state.costUsd > config.costUsd.value.hard {
        return Some(HardCapExceeded("cost_usd", state.costUsd, config.costUsd.value.hard));
      }
      if config.inputTokens.Some? && state.inputTokens > config.inputTokens.value.hard {
        return Some(HardCapExceeded("input_tokens", state.inputTokens as real, config.inputTokens.value.hard as real));
      }
      if config.outputTokens.Some? && state.outputTokens > config.outputTokens.value.hard {
        return Some(HardCapExceeded("output_tokens", state.outputTokens as real, config.outputTokens.value.hard as real));
      }
      if config.callCount.Some? && state.callCount > config.callCount.value.hard {
        return Some(HardCapExceeded("call_count", state.callCount as real, config.callCount.value.hard as real));
      }
      return None;
    }
  }
}
