/**
 What every answer of the engine is, read off the calls alone: the run's totals, the history of its
 checked calls and the rules as the policy file lists them. No engine state is mentioned.
 */
module EngineAnswers {
  import opened Wrappers
  import opened Policy
  import opened Engine
  import opened EngineRuns
  import Budget
  import LoopDetector

  /** The run was over a cap before the last call. */
  predicate SpentBefore(policy: CompiledPolicy, inputs: seq<Input>)
    requires inputs != []
  {
    var runId := RunOf(Last(inputs));
    Called(Front(inputs), runId) && Budget.Exceeded(Totals(Front(inputs), runId), policy.budget)
  }

  /** The last call gets as far as the loop detector. */
  predicate IsChecked(policy: CompiledPolicy, inputs: seq<Input>)
    requires inputs != []
  {
    Last(inputs).req.tool != ESCALATE_TOOL && policy.LoopConfig().enabled && !SpentBefore(policy, inputs)
  }

  function CheckOf(input: Input): LoopDetector.LoopOp {
    LoopDetector.CheckOp(input.req.runId, input.req.tool, input.req.argsHash, input.now)
  }

  /** The checks that the loop detector sees, of all runs. */
  function Checks(policy: CompiledPolicy, inputs: seq<Input>): seq<LoopDetector.LoopOp> {
    if inputs == [] then []
    else Checks(policy, Front(inputs)) + (if IsChecked(policy, inputs) then [CheckOf(Last(inputs))] else [])
  }

  ghost predicate ClockRises(inputs: seq<Input>) {
    forall i, j :: 0 <= i < j < |inputs| ==> inputs[i].now <= inputs[j].now
  }

  // ---------------------------------------------------------------------
  // The loop detector inside the engine
  // ---------------------------------------------------------------------

  lemma PreCheckMeans(policy: CompiledPolicy, inputs: seq<Input>)
    requires inputs != []
    ensures PreCheck(policy, After(policy, Front(inputs), true).budget, RunOf(Last(inputs)))
         == if SpentBefore(policy, inputs)
            then Budget.FirstHardCap(Totals(Front(inputs), RunOf(Last(inputs))), policy.budget.value) else None
  {
    hide After, Totals, Called;
    TotalsAreRecorded(policy, Front(inputs), true, RunOf(Last(inputs)));
  }

  lemma ChecksStep(config: LoopDetector.LoopConfig, ops: seq<LoopDetector.LoopOp>, op: LoopDetector.LoopOp)
    requires op.CheckOp?
    ensures var states := LoopDetector.After(config, ops);
            var (run, status) := LoopDetector.CheckRun(LoopDetector.StateOf(states, op.runId), op.tool, op.argsHash, op.now, config);
            && LoopDetector.After(config, ops + [op]) == states[op.runId := run]
            && LoopDetector.Answer(config, ops + [op]) == status
  {
    hide LoopDetector.CheckRun;
    assert Front(ops + [op]) == ops && Last(ops + [op]) == op;
  }

  /** The engine's loop state is that of a detector which saw exactly the checks. */
  lemma {:induction false} LoopsAreChecks(policy: CompiledPolicy, inputs: seq<Input>)
    ensures After(policy, inputs, true).loops == LoopDetector.After(policy.LoopConfig(), Checks(policy, inputs))
    decreases |inputs|
  {
    hide Enforce, Evaluate, LoopDetector.After;
    if inputs == [] {
      NoChecks(policy);
    } else {
      LoopsAreChecks(policy, Front(inputs));
      var s, input := After(policy, Front(inputs), true), Last(inputs);
      EnforceParts(policy, s, input, true);
      PreCheckMeans(policy, inputs);
      EvaluateLoops(policy, s, input.req, input.now);
      if IsChecked(policy, inputs) {
        ChecksStep(policy.LoopConfig(), Checks(policy, Front(inputs)), CheckOf(input));
      } else {
        assert Checks(policy, inputs) == Checks(policy, Front(inputs));
      }
    }
  }

  lemma NoChecks(policy: CompiledPolicy)
    ensures INITIAL.loops == LoopDetector.After(policy.LoopConfig(), [])
  {
  }

  /** What evaluation does to the loop state, and its answer, by the three cases. */
  lemma EvaluateLoops(policy: CompiledPolicy, s: State, req: Request, now: int)
    ensures var (loops, r) := Evaluate(policy, s, req, now, true);
            var over := PreCheck(policy, s.budget, req.runId);
            var (run, status) := LoopDetector.CheckRun(LoopDetector.StateOf(s.loops, req.runId), req.tool, req.argsHash, now, policy.LoopConfig());
            if req.tool != ESCALATE_TOOL && over.None? && policy.LoopConfig().enabled
            then loops == s.loops[req.runId := run] && r == LoopResponse(policy, req, status)
            else loops == s.loops && r == (if req.tool == ESCALATE_TOOL then EscalationAllow(req)
                                           else if over.Some? then BudgetKill(req, over.value) else RuleResponse(policy, req))
  {
    hide LoopDetector.CheckRun, LoopResponse, RuleResponse, PreCheck;
  }

  function EscalationAllow(req: Request): Response {
    Response(req.runId, req.seqNo, Allow, Some(ESCALATE_RULE), EscalationAlwaysAllowed, None)
  }

  lemma {:induction false} ChecksAreClocked(policy: CompiledPolicy, inputs: seq<Input>)
    requires ClockRises(inputs)
    ensures LoopDetector.Clocked(Checks(policy, inputs))
    ensures forall op :: op in Checks(policy, inputs) ==> op.CheckOp? && inputs != [] && op.now <= Last(inputs).now
    decreases |inputs|
  {
    hide IsChecked;
    if inputs != [] {
      ChecksAreClocked(policy, Front(inputs));
      var ops := Checks(policy, Front(inputs));
      if Front(inputs) != [] {
        assert Last(Front(inputs)).now <= Last(inputs).now;
      }
      forall i, j | 0 <= i < j < |Checks(policy, inputs)|
        ensures Checks(policy, inputs)[i].now <= Checks(policy, inputs)[j].now
      {
        assert Checks(policy, inputs)[i] == ops[i] && ops[i] in ops;
      }
    }
  }

  // ---------------------------------------------------------------------
  // The declarative answer
  // ---------------------------------------------------------------------

  /** The answer of the policy file: its deciding rule's, or a deny without rule id when none matches. */
  ghost predicate RulesAnswer(lib: Library, file: seq<Rule>, req: Request, r: Response) {
    if forall j: nat :: j < |file| ==> !RuleMatches(lib, file[j], req)
    then r == Response(req.runId, req.seqNo, Deny, None, NoRuleFor(req.tool), None)
    else exists k: nat :: TheDecider(lib, file, k, req) && r == AnswerOfRule(file[k], req)
  }

  function AnswerOfRule(rule: Rule, req: Request): Response {
    Response(req.runId, req.seqNo, DecisionOf(rule.action), Some(rule.name), RuleReason(rule.reason), None)
  }

  lemma RulesAreDeclarative(policy: CompiledPolicy, file: seq<Rule>, req: Request)
    requires policy.rules == SortRules(file)
    ensures RulesAnswer(policy.lib, file, req, RuleResponse(policy, req))
  {
    hide SortRules, RuleMatches, FirstMatch;
    FirstMatchDecides(policy.lib, file, req);
    var m := FirstMatch(policy.lib, SortRules(file), req);
    if m.Some? {
      var k: nat :| TheDecider(policy.lib, file, k, req) && SortRules(file)[m.value] == file[k];
      assert RuleResponse(policy, req) == AnswerOfRule(file[k], req);
    }
  }

  /** The cap a budget kill reports is the first one exceeded, in the order cost, input, output, calls. */
  function CapKill(req: Request, total: Budget.BudgetState, config: Budget.BudgetConfig): Response
    requires Budget.OverHard(total, config)
  {
    BudgetKill(req, Budget.FirstHardCap(total, config).value)
  }

  /** What the last call of a trace must be answered. */
  ghost predicate IsAnswer(policy: CompiledPolicy, file: seq<Rule>, inputs: seq<Input>, r: Response)
    requires inputs != []
  {
    var req := Last(inputs).req;
    if !Last(inputs).auditOk then r == AuditKill(req)
    else if Budget.Exceeded(Totals(inputs, req.runId), policy.budget) then
      r == CapKill(req, Totals(inputs, req.runId), policy.budget.value)
    else if req.tool == ESCALATE_TOOL then r == EscalationAllow(req)
    else if SpentBefore(policy, inputs) then r == CapKill(req, Totals(Front(inputs), req.runId), policy.budget.value)
    else if LoopAnswer(policy, inputs) != LoopDetector.Ok then r == LoopResponse(policy, req, LoopAnswer(policy, inputs))
    else RulesAnswer(policy.lib, file, req, r)
  }

  /** The verdict on repetition that the full history of checks gives; none when the last call is not checked. */
  function LoopAnswer(policy: CompiledPolicy, inputs: seq<Input>): LoopDetector.LoopStatus
    requires inputs != []
  {
    if IsChecked(policy, inputs) && Checks(policy, inputs) != []
    then LoopDetector.HistoricalAnswer(policy.LoopConfig(), Checks(policy, inputs)) else LoopDetector.Ok
  }

  lemma StatusIsHistorical(policy: CompiledPolicy, inputs: seq<Input>)
    requires inputs != [] && ClockRises(inputs) && IsChecked(policy, inputs)
    ensures var input, states := Last(inputs), After(policy, Front(inputs), true).loops;
            var run := LoopDetector.StateOf(states, input.req.runId);
            LoopDetector.CheckRun(run, input.req.tool, input.req.argsHash, input.now, policy.LoopConfig()).1
            == LoopAnswer(policy, inputs)
  {
    hide LoopDetector.CheckRun, LoopDetector.HistoricalAnswer, LoopDetector.Answer, LoopDetector.After,
         LoopDetector.Clocked, After, IsChecked;
    var ops := Checks(policy, Front(inputs));
    LoopsAreChecks(policy, Front(inputs));
    ChecksAreClocked(policy, inputs);
    assert Checks(policy, inputs) == ops + [CheckOf(Last(inputs))];
    ChecksStep(policy.LoopConfig(), ops, CheckOf(Last(inputs)));
    LoopDetector.AnswersAreHistorical(policy.LoopConfig(), Checks(policy, inputs));
  }

  lemma EvaluateIsDeclared(policy: CompiledPolicy, file: seq<Rule>, inputs: seq<Input>)
    requires inputs != [] && ClockRises(inputs) && policy.rules == SortRules(file) && Last(inputs).req.tool != ESCALATE_TOOL
    ensures var r := Evaluate(policy, After(policy, Front(inputs), true), Last(inputs).req, Last(inputs).now, true).1;
            if SpentBefore(policy, inputs)
            then r == CapKill(Last(inputs).req, Totals(Front(inputs), RunOf(Last(inputs))), policy.budget.value)
            else if LoopAnswer(policy, inputs) != LoopDetector.Ok
            then r == LoopResponse(policy, Last(inputs).req, LoopAnswer(policy, inputs))
            else RulesAnswer(policy.lib, file, Last(inputs).req, r)
  {
    hide Evaluate, After, Totals, Called, LoopDetector.CheckRun, LoopDetector.HistoricalAnswer, RuleResponse, RulesAnswer, SortRules,
         Checks, Budget.FirstHardCap;
    var s, input := After(policy, Front(inputs), true), Last(inputs);
    PreCheckMeans(policy, inputs);
    EvaluateLoops(policy, s, input.req, input.now);
    RulesAreDeclarative(policy, file, input.req);
    if IsChecked(policy, inputs) {
      StatusIsHistorical(policy, inputs);
    }
  }

  /**
   Main result: with a policy compiled from `file` and a clock that never goes back, every answer in
   every interleaving of runs is the declarative one: an audit kill, a kill that names the first
   exceeded cap, the escalation bypass, the verdict on repetition over the full history of checked
   calls, or the answer of the one rule of the file that decides.
   */
  lemma EveryAnswerIsDeclared(policy: CompiledPolicy, file: seq<Rule>, inputs: seq<Input>)
    requires inputs != [] && ClockRises(inputs) && policy.rules == SortRules(file)
    ensures IsAnswer(policy, file, inputs, Answer(policy, inputs, true))
  {
    hide Evaluate, After, RulesAnswer, LoopAnswer, SpentBefore, CapKill, LoopResponse, Budget.Plus, SortRules, ClockRises;
    var s, input := After(policy, Front(inputs), true), Last(inputs);
    TotalsAreRecorded(policy, Front(inputs), true, RunOf(input));
    EnforceReports(policy, s, input);
    if input.req.tool == ESCALATE_TOOL {
      EvaluateLoops(policy, s, input.req, input.now);
    } else {
      EvaluateIsDeclared(policy, file, inputs);
    }
  }

  lemma EnforceReports(policy: CompiledPolicy, s: State, input: Input)
    ensures var total := TotalAfter(s, input.req);
            Enforce(policy, s, input, true).1
            == if !input.auditOk then AuditKill(input.req)
               else if Budget.Exceeded(total, policy.budget) then CapKill(input.req, total, policy.budget.value)
               else Evaluate(policy, s, input.req, input.now, true).1
  {
    hide Evaluate, Budget.FirstHardCap, Budget.StatusOf;
    if policy.budget.Some? {
      Budget.WorstStatusIsFirstHardCap(TotalAfter(s, input.req), policy.budget.value);
    }
  }
}
