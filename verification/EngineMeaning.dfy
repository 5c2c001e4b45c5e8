/**
 The engine's answers in plain terms. Everything here is stated on the fields of the requests, the
 policy and the rules as they are written, with the names and numbers of the engine's interface; none
 of the functions that the engine is made of is used to say what it must answer.
 */
module EngineMeaning {
  import opened Wrappers
  import opened Policy
  import opened Engine
  import opened EngineRuns
  import opened EngineAnswers
  import Budget
  import LoopDetector

  // ---------------------------------------------------------------------
  // What a run has used
  // ---------------------------------------------------------------------

  function CostOf(inputs: seq<Input>, runId: string): real {
    if inputs == [] then 0.0
    else
      var req := Last(inputs).req;
      CostOf(Front(inputs), runId)
      + (if req.runId == runId && req.estimatedCostUsd.Some? then req.estimatedCostUsd.value else 0.0)
  }

  function InputTokensOf(inputs: seq<Input>, runId: string): nat {
    if inputs == [] then 0
    else
      var req := Last(inputs).req;
      InputTokensOf(Front(inputs), runId) + (if req.runId == runId && req.inputTokens.Some? then req.inputTokens.value else 0)
  }

  function OutputTokensOf(inputs: seq<Input>, runId: string): nat {
    if inputs == [] then 0
    else
      var req := Last(inputs).req;
      OutputTokensOf(Front(inputs), runId) + (if req.runId == runId && req.outputTokens.Some? then req.outputTokens.value else 0)
  }

  function CallsOf(inputs: seq<Input>, runId: string): nat {
    if inputs == [] then 0 else CallsOf(Front(inputs), runId) + (if Last(inputs).req.runId == runId then 1 else 0)
  }

  /** The totals are the sums of what the requests say, over all calls of the run. */
  lemma {:induction false} TotalsAreSums(inputs: seq<Input>, runId: string)
    ensures var t := Totals(inputs, runId);
            && t.costUsd == CostOf(inputs, runId) && t.inputTokens == InputTokensOf(inputs, runId)
            && t.outputTokens == OutputTokensOf(inputs, runId) && t.callCount == CallsOf(inputs, runId)
    ensures Called(inputs, runId) <==> CallsOf(inputs, runId) > 0
    decreases |inputs|
  {
    if inputs != [] {
      TotalsAreSums(Front(inputs), runId);
    }
  }

  predicate CostOver(policy: CompiledPolicy, inputs: seq<Input>, runId: string) {
    policy.budget.Some? && policy.budget.value.costUsd.Some? && CostOf(inputs, runId) > policy.budget.value.costUsd.value.hard
  }

  predicate InputOver(policy: CompiledPolicy, inputs: seq<Input>, runId: string) {
    policy.budget.Some? && policy.budget.value.inputTokens.Some?
    && InputTokensOf(inputs, runId) > policy.budget.value.inputTokens.value.hard
  }

  predicate OutputOver(policy: CompiledPolicy, inputs: seq<Input>, runId: string) {
    policy.budget.Some? && policy.budget.value.outputTokens.Some?
    && OutputTokensOf(inputs, runId) > policy.budget.value.outputTokens.value.hard
  }

  predicate CallsOver(policy: CompiledPolicy, inputs: seq<Input>, runId: string) {
    policy.budget.Some? && policy.budget.value.callCount.Some? && CallsOf(inputs, runId) > policy.budget.value.callCount.value.hard
  }

  /** Some total is strictly above its hard cap; a total that equals its cap is not over. */
  predicate Over(policy: CompiledPolicy, inputs: seq<Input>, runId: string) {
    || CostOver(policy, inputs, runId) || InputOver(policy, inputs, runId)
    || OutputOver(policy, inputs, runId) || CallsOver(policy, inputs, runId)
  }

  lemma OverMeans(policy: CompiledPolicy, inputs: seq<Input>, runId: string)
    ensures Budget.Exceeded(Totals(inputs, runId), policy.budget) <==> Over(policy, inputs, runId)
  {
    hide Totals, CostOf, InputTokensOf, OutputTokensOf, CallsOf;
    TotalsAreSums(inputs, runId);
  }

  /** A kill that names the first total over its cap, in the order cost, input, output, calls. */
  ghost predicate IsBudgetKill(policy: CompiledPolicy, inputs: seq<Input>, req: Request, r: Response) {
    && r.runId == req.runId && r.seqNo == req.seqNo && r.decision == Kill && r.cooldownMs == None
    && r.ruleId == Some("__builtin_budget_hard_cap")
    && (if CostOver(policy, inputs, req.runId) then
          r.reason == OverBudget("cost_usd", CostOf(inputs, req.runId), policy.budget.value.costUsd.value.hard)
        else if InputOver(policy, inputs, req.runId) then
          r.reason == OverBudget("input_tokens", InputTokensOf(inputs, req.runId) as real, policy.budget.value.inputTokens.value.hard as real)
        else if OutputOver(policy, inputs, req.runId) then
          r.reason == OverBudget("output_tokens", OutputTokensOf(inputs, req.runId) as real, policy.budget.value.outputTokens.value.hard as real)
        else
          && CallsOver(policy, inputs, req.runId)
          && r.reason == OverBudget("call_count", CallsOf(inputs, req.runId) as real, policy.budget.value.callCount.value.hard as real))
  }

  lemma CapKillMeans(policy: CompiledPolicy, inputs: seq<Input>, req: Request)
    requires Over(policy, inputs, req.runId)
    ensures policy.budget.Some? && Budget.OverHard(Totals(inputs, req.runId), policy.budget.value)
    ensures IsBudgetKill(policy, inputs, req, CapKill(req, Totals(inputs, req.runId), policy.budget.value))
  {
    hide Totals, CostOf, InputTokensOf, OutputTokensOf, CallsOf;
    TotalsAreSums(inputs, req.runId);
    OverMeans(policy, inputs, req.runId);
  }

  // ---------------------------------------------------------------------
  // Repetition
  // ---------------------------------------------------------------------

  /** Loop detection is on unless the policy turns it off. */
  predicate LoopOn(policy: CompiledPolicy) {
    policy.loopDetection.None? || policy.loopDetection.value.enabled
  }

  /** The window in nanoseconds: 120 seconds unless the policy says otherwise. */
  function WindowNanos(policy: CompiledPolicy): int {
    1_000_000_000 * (if policy.loopDetection.None? then 120 else policy.loopDetection.value.windowSeconds)
  }

  function CallLimit(policy: CompiledPolicy): nat {
    if policy.loopDetection.None? then 3 else policy.loopDetection.value.callThreshold
  }

  function PauseMs(policy: CompiledPolicy): nat {
    if policy.loopDetection.None? then 5000 else policy.loopDetection.value.cooldownMs
  }

  /** The run had used too much before the last call. */
  predicate OverBefore(policy: CompiledPolicy, inputs: seq<Input>)
    requires inputs != []
  {
    CallsOf(Front(inputs), Last(inputs).req.runId) > 0 && Over(policy, Front(inputs), Last(inputs).req.runId)
  }

  predicate Reaches(policy: CompiledPolicy, inputs: seq<Input>)
    requires inputs != []
  {
    Last(inputs).req.tool != "escalate_to_human" && LoopOn(policy) && !OverBefore(policy, inputs)
  }

  /** How many calls of the run with this tool and arguments are at most `window` old at `now`. */
  function Recent(policy: CompiledPolicy, inputs: seq<Input>, runId: string, tool: string, argsHash: string, now: int, window: int): nat {
    if inputs == [] then 0
    else
      var input := Last(inputs);
      Recent(policy, Front(inputs), runId, tool, argsHash, now, window)
      + (if Reaches(policy, inputs) && input.req.runId == runId && input.req.tool == tool && input.req.argsHash == argsHash
            && now - input.now <= window then 1 else 0)
  }

  /** How often the last call has been made lately, itself included. */
  function Repetitions(policy: CompiledPolicy, inputs: seq<Input>): nat
    requires inputs != []
  {
    var input := Last(inputs);
    Recent(policy, inputs, input.req.runId, input.req.tool, input.req.argsHash, input.now, WindowNanos(policy))
  }

  /** Some call of the run with this fingerprint has reached the limit. */
  predicate Tripped(policy: CompiledPolicy, inputs: seq<Input>, runId: string, fingerprint: string) {
    inputs != [] && (
      || Tripped(policy, Front(inputs), runId, fingerprint)
      || (&& Reaches(policy, inputs) && Last(inputs).req.runId == runId
          && Last(inputs).req.tool + ":" + Last(inputs).req.argsHash == fingerprint
          && Repetitions(policy, inputs) >= CallLimit(policy)))
  }

  lemma ReachesMeans(policy: CompiledPolicy, inputs: seq<Input>)
    requires inputs != []
    ensures SpentBefore(policy, inputs) <==> OverBefore(policy, inputs)
    ensures IsChecked(policy, inputs) <==> Reaches(policy, inputs)
  {
    hide Totals, CallsOf, Called, Over;
    TotalsAreSums(Front(inputs), RunOf(Last(inputs)));
    OverMeans(policy, Front(inputs), RunOf(Last(inputs)));
  }

  lemma CallsInWindowAppend(ops: seq<LoopDetector.LoopOp>, op: LoopDetector.LoopOp, runId: string, tool: string, argsHash: string, now: int, window: int)
    requires op.CheckOp?
    ensures LoopDetector.CallsInWindow(ops + [op], runId, tool, argsHash, now, window)
         == LoopDetector.CallsInWindow(ops, runId, tool, argsHash, now, window)
            + (if op.runId == runId && op.tool == tool && op.argsHash == argsHash && now - op.now <= window then 1 else 0)
  {
    assert Front(ops + [op]) == ops && Last(ops + [op]) == op;
  }

  lemma {:induction false} RecentIsCounted(policy: CompiledPolicy, inputs: seq<Input>, runId: string, tool: string, argsHash: string, now: int, window: int)
    ensures Recent(policy, inputs, runId, tool, argsHash, now, window)
         == LoopDetector.CallsInWindow(Checks(policy, inputs), runId, tool, argsHash, now, window)
    decreases |inputs|
  {
    hide IsChecked, Reaches;
    if inputs != [] {
      RecentIsCounted(policy, Front(inputs), runId, tool, argsHash, now, window);
      ReachesMeans(policy, inputs);
      var ops := Checks(policy, Front(inputs));
      if IsChecked(policy, inputs) {
        CallsInWindowAppend(ops, CheckOf(Last(inputs)), runId, tool, argsHash, now, window);
      } else {
        assert ops + [] == ops;
      }
    }
  }

  lemma ConfigMeans(policy: CompiledPolicy)
    ensures LoopDetector.Window(policy.LoopConfig()) == WindowNanos(policy)
    ensures policy.LoopConfig().callThreshold == CallLimit(policy)
    ensures policy.LoopConfig().cooldownMs == PauseMs(policy)
    ensures policy.LoopConfig().enabled <==> LoopOn(policy)
  {
  }

  /** A checked call trips the detector exactly when its repetitions reach the limit. */
  lemma AnswerOfCheck(policy: CompiledPolicy, inputs: seq<Input>)
    requires inputs != [] && ClockRises(inputs) && IsChecked(policy, inputs)
    ensures var ops, req := Checks(policy, inputs), Last(inputs).req;
            && ops != [] && Front(ops) == Checks(policy, Front(inputs))
            && LoopDetector.Answer(policy.LoopConfig(), ops) == LoopDetector.HistoricalAnswer(policy.LoopConfig(), ops)
            && LoopDetector.HistoricalAnswer(policy.LoopConfig(), ops)
               == LoopDetector.Judge(req.tool + ":" + req.argsHash, Repetitions(policy, inputs), CallLimit(policy),
                                     LoopDetector.TriggeredBefore(policy.LoopConfig(), Checks(policy, Front(inputs)),
                                                                  req.runId, req.tool + ":" + req.argsHash))
  {
    hide LoopDetector.Answer, LoopDetector.TriggeredBefore, LoopDetector.CallsInWindow, LoopDetector.Judge, IsChecked, Recent,
         LoopDetector.Clocked, LoopDetector.Window, LoopDetector.NANOS_PER_SECOND;
    var ops, input := Checks(policy, inputs), Last(inputs);
    assert ops == Checks(policy, Front(inputs)) + [CheckOf(input)];
    assert Front(ops) == Checks(policy, Front(inputs)) && Last(ops) == CheckOf(input);
    ChecksAreClocked(policy, inputs);
    LoopDetector.AnswersAreHistorical(policy.LoopConfig(), ops);
    ConfigMeans(policy);
    RecentIsCounted(policy, inputs, input.req.runId, input.req.tool, input.req.argsHash, input.now, WindowNanos(policy));
  }

  lemma {:induction false} TrippedMeans(policy: CompiledPolicy, inputs: seq<Input>, runId: string, fp: string)
    requires ClockRises(inputs)
    ensures LoopDetector.TriggeredBefore(policy.LoopConfig(), Checks(policy, inputs), runId, fp) <==> Tripped(policy, inputs, runId, fp)
    decreases |inputs|
  {
    hide IsChecked, Reaches, LoopDetector.Answer, Repetitions, LoopDetector.HistoricalAnswer;
    if inputs != [] {
      TrippedMeans(policy, Front(inputs), runId, fp);
      ReachesMeans(policy, inputs);
      if IsChecked(policy, inputs) {
        AnswerOfCheck(policy, inputs);
        assert Last(Checks(policy, inputs)) == CheckOf(Last(inputs));
      } else {
        assert Checks(policy, inputs) == Checks(policy, Front(inputs));
      }
    }
  }

  /** The verdict on repetition: a pause the first time, and a kill every time after that. */
  ghost predicate IsLoopAnswer(policy: CompiledPolicy, inputs: seq<Input>, r: Response)
    requires inputs != []
  {
    var req := Last(inputs).req;
    var fingerprint := req.tool + ":" + req.argsHash;
    && r.runId == req.runId && r.seqNo == req.seqNo
    && r.ruleId == Some("__builtin_loop_detection") && r.reason == Looping(fingerprint, Repetitions(policy, inputs))
    && (if Tripped(policy, Front(inputs), req.runId, fingerprint)
        then r.decision == Kill && r.cooldownMs == None
        else r.decision == Cooldown && r.cooldownMs == Some(PauseMs(policy)))
  }

  lemma LoopAnswerMeans(policy: CompiledPolicy, inputs: seq<Input>)
    requires inputs != [] && ClockRises(inputs)
    ensures LoopAnswer(policy, inputs) != LoopDetector.Ok
       <==> Reaches(policy, inputs) && Repetitions(policy, inputs) >= CallLimit(policy)
    ensures LoopAnswer(policy, inputs) != LoopDetector.Ok ==>
              IsLoopAnswer(policy, inputs, LoopResponse(policy, Last(inputs).req, LoopAnswer(policy, inputs)))
  {
    hide IsChecked, Reaches, Repetitions, Tripped, LoopDetector.Answer, LoopDetector.HistoricalAnswer, LoopDetector.TriggeredBefore,
         RuleResponse;
    ReachesMeans(policy, inputs);
    ConfigMeans(policy);
    if IsChecked(policy, inputs) {
      var req := Last(inputs).req;
      AnswerOfCheck(policy, inputs);
      assert ClockRises(Front(inputs));
      TrippedMeans(policy, Front(inputs), req.runId, req.tool + ":" + req.argsHash);
    }
  }

  // ---------------------------------------------------------------------
  // Rules
  // ---------------------------------------------------------------------

  /** What the file's rules say: the least matching rule's action, or a deny without rule id when none matches. */
  ghost predicate IsRuleAnswer(lib: Library, file: seq<Rule>, req: Request, r: Response) {
    && r.runId == req.runId && r.seqNo == req.seqNo && r.cooldownMs == None
    && if forall j: nat :: j < |file| ==> !RuleMatches(lib, file[j], req)
       then r.decision == Deny && r.ruleId == None && r.reason == NoRuleFor(req.tool)
       else exists k: nat :: LeastMatch(lib, file, k, req) && SaysRule(file[k], r)
  }

  /** The response carries the rule's name and reason, and its action as the decision. */
  predicate SaysRule(rule: Rule, r: Response) {
    && r.ruleId == Some(rule.name) && r.reason == RuleReason(rule.reason)
    && (rule.action == AllowAction ==> r.decision == Allow)
    && (rule.action == DenyAction ==> r.decision == Deny)
    && (rule.action == RequireApprovalAction ==> r.decision == RequireApproval)
  }

  lemma RulesAnswerMeans(lib: Library, file: seq<Rule>, req: Request, r: Response)
    requires RulesAnswer(lib, file, req, r)
    ensures IsRuleAnswer(lib, file, req, r)
  {
    hide RuleMatches;
    if !(forall j: nat :: j < |file| ==> !RuleMatches(lib, file[j], req)) {
      var k: nat :| TheDecider(lib, file, k, req) && r == AnswerOfRule(file[k], req);
      DecidesOnFields(lib, file, k, req);
      assert LeastMatch(lib, file, k, req) && SaysRule(file[k], r);
    }
  }

  // ---------------------------------------------------------------------
  // Every answer
  // ---------------------------------------------------------------------

  /** The answer to the last call of a trace. */
  ghost predicate IsAnswerTo(policy: CompiledPolicy, file: seq<Rule>, inputs: seq<Input>, r: Response)
    requires inputs != []
  {
    var req := Last(inputs).req;
    if !Last(inputs).auditOk then
      r == Response(req.runId, req.seqNo, Kill, Some("__builtin_audit_write_failure"), AuditFailed, None)
    else if Over(policy, inputs, req.runId) then IsBudgetKill(policy, inputs, req, r)
    else if req.tool == "escalate_to_human" then
      r == Response(req.runId, req.seqNo, Allow, Some("__builtin_escalate_to_human_allow"), EscalationAlwaysAllowed, None)
    else if OverBefore(policy, inputs) then IsBudgetKill(policy, Front(inputs), req, r)
    else if LoopOn(policy) && Repetitions(policy, inputs) >= CallLimit(policy) then IsLoopAnswer(policy, inputs, r)
    else IsRuleAnswer(policy.lib, file, req, r)
  }

  /**
   Main result: for every policy compiled from `file` and every interleaving of calls on a clock that
   never goes back, the engine answers each call with exactly what the plain terms say.
   */
  lemma EveryAnswerMeans(policy: CompiledPolicy, file: seq<Rule>, inputs: seq<Input>)
    requires inputs != [] && ClockRises(inputs) && policy.rules == SortRules(file)
    ensures IsAnswerTo(policy, file, inputs, Answer(policy, inputs, true))
  {
    hide Answer, Totals, Over, IsBudgetKill, CapKill, SpentBefore, OverBefore, RulesAnswer, IsRuleAnswer, LoopAnswer, IsLoopAnswer,
         LoopResponse, Repetitions, SortRules, ClockRises, IsChecked;
    var r, req := Answer(policy, inputs, true), Last(inputs).req;
    EveryAnswerIsDeclared(policy, file, inputs);
    OverMeans(policy, inputs, req.runId);
    ReachesMeans(policy, inputs);
    LoopAnswerMeans(policy, inputs);
    if Over(policy, inputs, req.runId) {
      CapKillMeans(policy, inputs, req);
    }
    if OverBefore(policy, inputs) {
      OverBeforeMeans(policy, inputs);
      CapKillMeans(policy, Front(inputs), req);
    }
    if RulesAnswer(policy.lib, file, req, r) {
      RulesAnswerMeans(policy.lib, file, req, r);
    }
  }

  lemma OverBeforeMeans(policy: CompiledPolicy, inputs: seq<Input>)
    requires inputs != [] && OverBefore(policy, inputs)
    ensures Over(policy, Front(inputs), Last(inputs).req.runId)
  {
  }

  /**
   What a caller may conclude from the decision alone, for a call that gets as far as the rules: it
   is allowed if and only if the least matching rule of the file allows, needs approval if and only if
   that rule asks for it, and is denied if and only if that rule denies or no rule matches.
   */
  lemma RulesDecide(policy: CompiledPolicy, file: seq<Rule>, inputs: seq<Input>)
    requires inputs != [] && ClockRises(inputs) && policy.rules == SortRules(file)
    requires Last(inputs).auditOk && Last(inputs).req.tool != "escalate_to_human"
    requires !Over(policy, inputs, Last(inputs).req.runId) && !OverBefore(policy, inputs)
    requires LoopOn(policy) ==> Repetitions(policy, inputs) < CallLimit(policy)
    ensures var d := Answer(policy, inputs, true).decision;
            && (d == Allow <==> LeastHas(policy.lib, file, Last(inputs).req, AllowAction))
            && (d == RequireApproval <==> LeastHas(policy.lib, file, Last(inputs).req, RequireApprovalAction))
            && (d == Deny <==> || LeastHas(policy.lib, file, Last(inputs).req, DenyAction)
                               || forall j: nat :: j < |file| ==> !RuleMatches(policy.lib, file[j], Last(inputs).req))
  {
    hide Answer, Over, OverBefore, Repetitions, SortRules, ClockRises, RuleMatches, IsBudgetKill, IsLoopAnswer, LoopOn;
    EveryAnswerMeans(policy, file, inputs);
    LeastIsOne(policy.lib, file, Last(inputs).req);
  }

  ghost predicate LeastHas(lib: Library, file: seq<Rule>, req: Request, action: RuleAction) {
    exists k: nat :: LeastMatch(lib, file, k, req) && file[k].action == action
  }

  lemma LeastIsOne(lib: Library, file: seq<Rule>, req: Request)
    ensures forall k: nat, l: nat :: LeastMatch(lib, file, k, req) && LeastMatch(lib, file, l, req) ==> k == l
    ensures forall k: nat :: LeastMatch(lib, file, k, req) ==> k < |file| && RuleMatches(lib, file[k], req)
  {
    hide RuleMatches;
  }

  /** With a call cap alone, exactly the calls beyond the cap are killed for the budget: the call that meets it is not. */
  lemma CallCapIsExact(policy: CompiledPolicy, inputs: seq<Input>, soft: Option<nat>, cap: nat)
    requires inputs != []
    requires policy.budget == Some(Budget.BudgetConfig(None, None, None, Some(Budget.IntDimension(soft, cap))))
    ensures Answer(policy, inputs, true).reason.OverBudget?
       <==> Last(inputs).auditOk && CallsOf(inputs, Last(inputs).req.runId) > cap
  {
    hide Answer, Totals;
    var runId := Last(inputs).req.runId;
    BudgetKillIsExact(policy, inputs);
    OverMeans(policy, inputs, runId);
    OverMeans(policy, Front(inputs), runId);
  }

  // ---------------------------------------------------------------------
  // The audit log
  // ---------------------------------------------------------------------

  /** The first total above its soft cap, in the order cost, input, output, calls. */
  function SoftCapPassed(policy: CompiledPolicy, inputs: seq<Input>, runId: string): Option<string> {
    if policy.budget.None? then None
    else
      var c := policy.budget.value;
      if c.costUsd.Some? && c.costUsd.value.soft.Some? && CostOf(inputs, runId) > c.costUsd.value.soft.value then Some("cost_usd")
      else if c.inputTokens.Some? && c.inputTokens.value.soft.Some? && InputTokensOf(inputs, runId) > c.inputTokens.value.soft.value
      then Some("input_tokens")
      else if c.outputTokens.Some? && c.outputTokens.value.soft.Some? && OutputTokensOf(inputs, runId) > c.outputTokens.value.soft.value
      then Some("output_tokens")
      else if c.callCount.Some? && c.callCount.value.soft.Some? && CallsOf(inputs, runId) > c.callCount.value.soft.value
      then Some("call_count")
      else None
  }

  /** The whole log: each audited answer, and behind it a notice when a soft cap is passed and no hard one is. */
  function LogOf(policy: CompiledPolicy, inputs: seq<Input>): seq<AuditEntry> {
    if inputs == [] then []
    else
      var input, req := Last(inputs), Last(inputs).req;
      var passed := SoftCapPassed(policy, inputs, req.runId);
      LogOf(policy, Front(inputs))
      + (if input.auditOk then [PolicyDecision(Answer(policy, inputs, true), req.tool, req.argsHash)] else [])
      + (if input.auditOk && input.noticeOk && passed.Some? && !Over(policy, inputs, req.runId)
         then [SoftCapNotice(req.runId, req.seqNo, passed.value)] else [])
  }

  lemma SoftStatusMeans(policy: CompiledPolicy, inputs: seq<Input>, runId: string)
    ensures var status, passed := Budget.StatusOf(Totals(inputs, runId), policy.budget), SoftCapPassed(policy, inputs, runId);
            && (status.SoftCapWarning? <==> passed.Some? && !Over(policy, inputs, runId))
            && (status.SoftCapWarning? ==> status.dimension == passed.value)
  {
    hide Totals, CostOf, InputTokensOf, OutputTokensOf, CallsOf;
    TotalsAreSums(inputs, runId);
    OverMeans(policy, inputs, runId);
  }

  lemma EnforceLogs(policy: CompiledPolicy, s: State, input: Input)
    ensures var (s', r) := Enforce(policy, s, input, true);
            var status := Budget.StatusOf(TotalAfter(s, input.req), policy.budget);
            s'.audit == s.audit
                        + (if input.auditOk then [PolicyDecision(r, input.req.tool, input.req.argsHash)] else [])
                        + (if input.auditOk && input.noticeOk && status.SoftCapWarning?
                           then [SoftCapNotice(input.req.runId, input.req.seqNo, status.dimension)] else [])
  {
    hide Evaluate, Budget.StatusOf, TotalAfter;
  }

  /** The audit log of every trace is exactly that, entry by entry. */
  lemma {:induction false} AuditIsExact(policy: CompiledPolicy, inputs: seq<Input>)
    ensures After(policy, inputs, true).audit == LogOf(policy, inputs)
    decreases |inputs|
  {
    hide Enforce, SoftCapPassed, Over, Budget.StatusOf, Budget.Plus;
    if inputs != [] {
      AuditIsExact(policy, Front(inputs));
      var s, input := After(policy, Front(inputs), true), Last(inputs);
      EnforceLogs(policy, s, input);
      TotalsAreRecorded(policy, Front(inputs), true, RunOf(input));
      SoftStatusMeans(policy, inputs, RunOf(input));
    }
  }
}
