/**
 The enforcement pipeline: evaluation (escalation bypass, budget pre-check, loop detection, first
 matching rule), budget recording, conversion to kill, and the audit write.

 `Evaluate` and `Enforce` are the pure meaning of one call; the class at the end performs it on
 mutable state.
 */
module Engine {
  import opened Wrappers
  import opened Policy
  import Budget
  import LoopDetector

  datatype Decision = Allow | Deny | Cooldown | Kill | RequireApproval

  /** What a reason text is made of. */
  datatype Reason =
    | EscalationAlwaysAllowed
    | OverBudget(dimension: string, current: real, cap: real)
    | Looping(fingerprint: string, count: nat)
    | RuleReason(text: Option<string>)
    | NoRuleFor(tool: string)
    | AuditFailed

  datatype Response = Response(
    runId: string,
    seqNo: nat,
    decision: Decision,
    ruleId: Option<string>,
    reason: Reason,
    cooldownMs: Option<nat>)

  const ESCALATE_TOOL := "escalate_to_human"
  const ESCALATE_RULE := "__builtin_escalate_to_human_allow"
  const BUDGET_RULE := "__builtin_budget_hard_cap"
  const LOOP_RULE := "__builtin_loop_detection"
  const AUDIT_RULE := "__builtin_audit_write_failure"

  datatype CompiledPolicy = CompiledPolicy(
    lib: Library,
    rules: seq<Rule>,
    budget: Option<Budget.BudgetConfig>,
    loopDetection: Option<LoopDetector.LoopConfig>)
  {
    function LoopConfig(): LoopDetector.LoopConfig {
      if loopDetection.Some? then loopDetection.value else LoopDetector.DEFAULT_CONFIG
    }
  }

  datatype AuditEntry =
    | PolicyDecision(response: Response, tool: string, argsHash: string)
    | SoftCapNotice(runId: string, seqNo: nat, dimension: string)

  datatype State = State(
    budget: map<string, Budget.BudgetState>,
    loops: map<string, LoopDetector.RunLoopState>,
    audit: seq<AuditEntry>)

  const INITIAL := State(map[], map[], [])

  /** One call: the request, the clock, and whether each of the two possible audit writes succeeds. */
  datatype Input = Input(req: Request, now: int, auditOk: bool, noticeOk: bool)

  function UpdateOf(req: Request): Budget.BudgetUpdate {
    Budget.BudgetUpdate(
      if req.estimatedCostUsd.Some? then req.estimatedCostUsd.value else 0.0,
      if req.inputTokens.Some? then req.inputTokens.value else 0,
      if req.outputTokens.Some? then req.outputTokens.value else 0)
  }

  function DecisionOf(action: RuleAction): Decision {
    match action
    case AllowAction => Allow
    case DenyAction => Deny
    case RequireApprovalAction => RequireApproval
  }

  function BudgetKill(req: Request, status: Budget.BudgetStatus): Response
    requires status.HardCapExceeded?
  {
    Response(req.runId, req.seqNo, Kill, Some(BUDGET_RULE),
             OverBudget(status.dimension, status.current, status.cap), None)
  }

  function RuleResponse(policy: CompiledPolicy, req: Request): Response {
    var m := FirstMatch(policy.lib, policy.rules, req);
    if m.None? then Response(req.runId, req.seqNo, Deny, None, NoRuleFor(req.tool), None)
    else
      var rule := policy.rules[m.value];
      Response(req.runId, req.seqNo, DecisionOf(rule.action), Some(rule.name), RuleReason(rule.reason), None)
  }

  function LoopResponse(policy: CompiledPolicy, req: Request, status: LoopDetector.LoopStatus): Response {
    match status
    case Ok => RuleResponse(policy, req)
    case CooldownWarning(fp, n) =>
      Response(req.runId, req.seqNo, Cooldown, Some(LOOP_RULE), Looping(fp, n), Some(policy.LoopConfig().cooldownMs))
    case LoopDetected(fp, n) => Response(req.runId, req.seqNo, Kill, Some(LOOP_RULE), Looping(fp, n), None)
  }

  /** The exceeded cap that the pre-check finds; a run with no recorded call has none. */
  function PreCheck(policy: CompiledPolicy, budget: map<string, Budget.BudgetState>, runId: string)
    : (r: Option<Budget.BudgetStatus>)
    ensures r.Some? ==> r.value.HardCapExceeded?
    ensures r.Some? <==> runId in budget && Budget.Exceeded(budget[runId], policy.budget)
  {
    if policy.budget.Some? && runId in budget then Budget.FirstHardCap(budget[runId], policy.budget.value) else None
  }

  /**
   Steps 1 to 4. `preCheck` selects the engine as written (true) or a variant without the budget
   pre-check (false), so that the two can be compared.
   */
  function Evaluate(policy: CompiledPolicy, s: State, req: Request, now: int, preCheck: bool)
    : (map<string, LoopDetector.RunLoopState>, Response)
  {
    var over := PreCheck(policy, s.budget, req.runId);
    if req.tool == ESCALATE_TOOL then
      (s.loops, Response(req.runId, req.seqNo, Allow, Some(ESCALATE_RULE), EscalationAlwaysAllowed, None))
    else if preCheck && over.Some? then (s.loops, BudgetKill(req, over.value))
    else if policy.LoopConfig().enabled then
      var (run, status) := LoopDetector.CheckRun(LoopDetector.StateOf(s.loops, req.runId), req.tool, req.argsHash,
                                                 now, policy.LoopConfig());
      (s.loops[req.runId := run], LoopResponse(policy, req, status))
    else (s.loops, RuleResponse(policy, req))
  }

  function TotalAfter(s: State, req: Request): Budget.BudgetState {
    Budget.Plus(Budget.StateOf(s.budget, req.runId), UpdateOf(req))
  }

  function AuditKill(req: Request): Response {
    Response(req.runId, req.seqNo, Kill, Some(AUDIT_RULE), AuditFailed, None)
  }

  function Settle(evaluated: Response, req: Request, status: Budget.BudgetStatus): Response {
    if status.HardCapExceeded? then BudgetKill(req, status) else evaluated
  }

  /** Step 7: the decision is logged, then the soft-cap notice on a best-effort basis. */
  function Log(audit: seq<AuditEntry>, input: Input, response: Response, status: Budget.BudgetStatus): seq<AuditEntry> {
    if !input.auditOk then audit
    else
      var logged := audit + [PolicyDecision(response, input.req.tool, input.req.argsHash)];
      if status.SoftCapWarning? && input.noticeOk
      then logged + [SoftCapNotice(input.req.runId, input.req.seqNo, status.dimension)] else logged
  }

  /** Steps 5 to 8, for any outcome of the evaluation. */
  function Finish(s: State, input: Input, loops: map<string, LoopDetector.RunLoopState>, evaluated: Response,
                  total: Budget.BudgetState, status: Budget.BudgetStatus): (State, Response)
  {
    var response := Settle(evaluated, input.req, status);
    (State(s.budget[input.req.runId := total], loops, Log(s.audit, input, response, status)),
     if input.auditOk then response else AuditKill(input.req))
  }

  function Enforce(policy: CompiledPolicy, s: State, input: Input, preCheck: bool): (State, Response) {
    var (loops, evaluated) := Evaluate(policy, s, input.req, input.now, preCheck);
    var total := TotalAfter(s, input.req);
    Finish(s, input, loops, evaluated, total, Budget.StatusOf(total, policy.budget))
  }

  // ---------------------------------------------------------------------
  // The mutable context
  // ---------------------------------------------------------------------

  class EnforcementContext {
    const policy: CompiledPolicy
    const budgetTracker: Budget.BudgetTracker
    const loopDetector: LoopDetector.Detector
    var audit: seq<AuditEntry>

    constructor (policy: CompiledPolicy)
      ensures this.policy == policy
      ensures fresh(budgetTracker) && fresh(loopDetector)
      ensures Current() == INITIAL
    {
      this.policy := policy;
      budgetTracker := new Budget.BudgetTracker();
      loopDetector := new LoopDetector.Detector();
      audit := [];
    }

    ghost function Current(): State
      reads this, budgetTracker, loopDetector
    {
      State(budgetTracker.states, loopDetector.states, audit)
    }

    /** The loop over the compiled rules: the first one that matches answers, else fail-closed deny. */
    method EvaluateRules(req: Request) returns (r: Response)
      ensures r == RuleResponse(policy, req)
    {
      ghost var m := FirstMatch(policy.lib, policy.rules, req);
      for i := 0 to |policy.rules|
        invariant m.Some? ==> i <= m.value
      {
        if RuleMatches(policy.lib, policy.rules[i], req) {
          var rule := policy.rules[i];
          return Response(req.runId, req.seqNo, DecisionOf(rule.action), Some(rule.name), RuleReason(rule.reason), None);
        }
      }
      return Response(req.runId, req.seqNo, Deny, None, NoRuleFor(req.tool), None);
    }

    method EvaluateRequest(req: Request, now: int) returns (r: Response)
      modifies loopDetector
      ensures (loopDetector.states, r) == Evaluate(policy, old(Current()), req, now, true)
    {
      if req.tool == ESCALATE_TOOL {
        return Response(req.runId, req.seqNo, Allow, Some(ESCALATE_RULE), EscalationAlwaysAllowed, None);
      }
      if policy.budget.Some? {
        var over := budgetTracker.CheckHardCaps(req.runId, policy.budget.value);
        if over.Some? {
          return BudgetKill(req, over.value);
        }
      }
      var config := policy.LoopConfig();
      if config.enabled {
        var status := loopDetector.Check(req.runId, req.tool, req.argsHash, now, config);
        match status {
          case CooldownWarning(fp, n) =>
            return Response(req.runId, req.seqNo, Cooldown, Some(LOOP_RULE), Looping(fp, n), Some(config.cooldownMs));
          case LoopDetected(fp, n) =>
            return Response(req.runId, req.seqNo, Kill, Some(LOOP_RULE), Looping(fp, n), None);
          case Ok =>
        }
      }
      r := EvaluateRules(req);
    }

    method EnforceRequest(input: Input) returns (r: Response)
      modifies this, budgetTracker, loopDetector
      ensures (Current(), r) == Enforce(policy, old(Current()), input, true)
    {
      var req := input.req;
      r := EvaluateRequest(req, input.now);
      var status := budgetTracker.Record(req.runId, UpdateOf(req), policy.budget);
      if status.HardCapExceeded? {
        r := BudgetKill(req, status);
      }
      if !input.auditOk {
        return Response(req.runId, req.seqNo, Kill, Some(AUDIT_RULE), AuditFailed, None);
      }
      audit := audit + [PolicyDecision(r, req.tool, req.argsHash)];
      if status.SoftCapWarning? && input.noticeOk {
        audit := audit + [SoftCapNotice(req.runId, req.seqNo, status.dimension)];
      }
    }
  }
}
