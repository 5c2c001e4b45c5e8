/** Results about every run of the enforcement engine, over arbitrary interleavings of agent runs. */
module EngineRuns {
  import opened Wrappers
  import opened Policy
  import opened Engine
  import Budget
  import LoopDetector

  function After(policy: CompiledPolicy, inputs: seq<Input>, preCheck: bool): State {
    if inputs == [] then INITIAL
    else Enforce(policy, After(policy, Front(inputs), preCheck), Last(inputs), preCheck).0
  }

  /** The engine's answer to the last call of the trace. */
  function Answer(policy: CompiledPolicy, inputs: seq<Input>, preCheck: bool): Response
    requires inputs != []
  {
    Enforce(policy, After(policy, Front(inputs), preCheck), Last(inputs), preCheck).1
  }

  function RunOf(input: Input): string { input.req.runId }

  /** The request schema's promise; the engine's own type does not enforce it. */
  ghost predicate NonNegativeCosts(inputs: seq<Input>) {
    forall i :: 0 <= i < |inputs| ==> UpdateOf(inputs[i].req).costUsd >= 0.0
  }

  /** What a run has used over all its calls, whatever was answered. */
  function Totals(inputs: seq<Input>, runId: string): Budget.BudgetState {
    if inputs == [] then Budget.Zero(runId)
    else if RunOf(Last(inputs)) == runId then Budget.Plus(Totals(Front(inputs), runId), UpdateOf(Last(inputs).req))
    else Totals(Front(inputs), runId)
  }

  predicate Called(inputs: seq<Input>, runId: string) {
    inputs != [] && (Called(Front(inputs), runId) || RunOf(Last(inputs)) == runId)
  }

  // ---------------------------------------------------------------------
  // What one call does, without the details of evaluation
  // ---------------------------------------------------------------------

  lemma EnforceBudget(policy: CompiledPolicy, s: State, input: Input, preCheck: bool)
    ensures var (s', r) := Enforce(policy, s, input, preCheck);
            var total := Budget.Plus(Budget.StateOf(s.budget, RunOf(input)), UpdateOf(input.req));
            && s'.budget == s.budget[RunOf(input) := total]
            && (!input.auditOk ==> r.decision == Kill && r.reason == AuditFailed)
            && (input.auditOk && Budget.Exceeded(total, policy.budget) ==> r.decision == Kill && r.reason.OverBudget?)
            && (input.auditOk && !Budget.Exceeded(total, policy.budget) ==>
                  r == Evaluate(policy, s, input.req, input.now, preCheck).1)
  {
    hide Evaluate;
  }

  /** Over a cap or without an audit write, the answer depends on the run's total alone. */
  lemma EnforceKillsAlike(policy: CompiledPolicy, s: State, t: State, input: Input, p: bool, q: bool)
    requires TotalAfter(s, input.req) == TotalAfter(t, input.req)
    requires !input.auditOk || Budget.Exceeded(TotalAfter(s, input.req), policy.budget)
    ensures Enforce(policy, s, input, p).1 == Enforce(policy, t, input, q).1
  {
    hide Evaluate;
  }

  lemma EvaluateReason(policy: CompiledPolicy, s: State, req: Request, now: int, preCheck: bool)
    ensures var r := Evaluate(policy, s, req, now, preCheck).1;
            r.reason.OverBudget? <==> preCheck && req.tool != ESCALATE_TOOL && PreCheck(policy, s.budget, req.runId).Some?
  {
    hide LoopDetector.CheckRun, RuleMatches;
  }

  lemma {:induction false} TotalsAreRecorded(policy: CompiledPolicy, inputs: seq<Input>, preCheck: bool, runId: string)
    ensures var budget := After(policy, inputs, preCheck).budget;
            Budget.StateOf(budget, runId) == Totals(inputs, runId) && (runId in budget <==> Called(inputs, runId))
    decreases |inputs|
  {
    hide Enforce, Evaluate, Budget.Plus;
    if inputs != [] {
      TotalsAreRecorded(policy, Front(inputs), preCheck, runId);
      EnforceBudget(policy, After(policy, Front(inputs), preCheck), Last(inputs), preCheck);
    }
  }

  // ---------------------------------------------------------------------
  // Budget safety and absorption
  // ---------------------------------------------------------------------

  /** Any answer but a kill leaves the run within every configured hard cap, its latest call included. */
  lemma BudgetSafety(policy: CompiledPolicy, inputs: seq<Input>)
    requires inputs != []
    requires Answer(policy, inputs, true).decision != Kill
    ensures !Budget.Exceeded(Totals(inputs, RunOf(Last(inputs))), policy.budget)
  {
    hide Enforce, Evaluate, Budget.Plus;
    TotalsAreRecorded(policy, Front(inputs), true, RunOf(Last(inputs)));
    EnforceBudget(policy, After(policy, Front(inputs), true), Last(inputs), true);
  }

  /**
   The budget answer is exact, whatever the costs: a call is answered with a budget kill if and only
   if it is audited and the run's totals are over a hard cap with it, or were before it and the tool
   is not the escalation tool.
   */
  lemma BudgetKillIsExact(policy: CompiledPolicy, inputs: seq<Input>)
    requires inputs != []
    ensures Answer(policy, inputs, true).reason.OverBudget?
       <==> && Last(inputs).auditOk
            && (|| Budget.Exceeded(Totals(inputs, RunOf(Last(inputs))), policy.budget)
                || (&& Last(inputs).req.tool != ESCALATE_TOOL && Called(Front(inputs), RunOf(Last(inputs)))
                    && Budget.Exceeded(Totals(Front(inputs), RunOf(Last(inputs))), policy.budget)))
  {
    hide Enforce, Evaluate, Budget.Plus;
    var runId, input := RunOf(Last(inputs)), Last(inputs);
    var s := After(policy, Front(inputs), true);
    TotalsAreRecorded(policy, Front(inputs), true, runId);
    EnforceBudget(policy, s, input, true);
    EvaluateReason(policy, s, input.req, input.now, true);
  }

  /** Call number `j` takes the run from over a cap to within all caps. */
  ghost predicate RevivedAt(policy: CompiledPolicy, inputs: seq<Input>, j: nat, runId: string)
    requires j < |inputs|
  {
    RunOf(inputs[j]) == runId && Budget.Revives(Totals(inputs[..j], runId), UpdateOf(inputs[j].req), policy.budget)
  }

  lemma TotalsStep(inputs: seq<Input>, j: nat, runId: string)
    requires j < |inputs|
    ensures Totals(inputs[..j + 1], runId)
         == if RunOf(inputs[j]) == runId then Budget.Plus(Totals(inputs[..j], runId), UpdateOf(inputs[j].req))
            else Totals(inputs[..j], runId)
  {
    assert Front(inputs[..j + 1]) == inputs[..j] && Last(inputs[..j + 1]) == inputs[j];
  }

  /** The run is over a cap before call number `j`. */
  ghost predicate SpentAt(policy: CompiledPolicy, inputs: seq<Input>, j: nat, runId: string)
    requires j <= |inputs|
  {
    Budget.Exceeded(Totals(inputs[..j], runId), policy.budget)
  }

  ghost predicate StaysSpent(policy: CompiledPolicy, inputs: seq<Input>, i: nat, n: nat, runId: string)
    requires n <= |inputs|
  {
    forall j :: i <= j <= n ==> SpentAt(policy, inputs, j, runId)
  }

  ghost predicate NeverRevived(policy: CompiledPolicy, inputs: seq<Input>, i: nat, n: nat, runId: string)
    requires n <= |inputs|
  {
    forall j :: i <= j < n ==> !RevivedAt(policy, inputs, j, runId)
  }

  lemma SpentStep(policy: CompiledPolicy, inputs: seq<Input>, j: nat, runId: string)
    requires j < |inputs| && SpentAt(policy, inputs, j, runId)
    ensures SpentAt(policy, inputs, j + 1, runId) <==> !RevivedAt(policy, inputs, j, runId)
  {
    hide Totals, Budget.Exceeded, Budget.Plus, Budget.Revives;
    TotalsStep(inputs, j, runId);
    Budget.RevivesExactlyWhen(Totals(inputs[..j], runId), UpdateOf(inputs[j].req), policy.budget);
  }

  /** A spent run stays spent up to a point if and only if no call before that point revives it. */
  lemma {:induction false} StaysSpentExactlyWhen(policy: CompiledPolicy, inputs: seq<Input>, i: nat, n: nat, runId: string)
    requires i <= n <= |inputs| && SpentAt(policy, inputs, i, runId)
    ensures StaysSpent(policy, inputs, i, n, runId) <==> NeverRevived(policy, inputs, i, n, runId)
    decreases n
  {
    hide SpentAt, RevivedAt;
    if i < n {
      StaysSpentExactlyWhen(policy, inputs, i, n - 1, runId);
      if SpentAt(policy, inputs, n - 1, runId) {
        SpentStep(policy, inputs, n - 1, runId);
      }
    }
  }

  /** Absorption: once a run's totals pass a cap, every answer to that run is a kill until a call revives it. */
  lemma BudgetKillIsAbsorbing(policy: CompiledPolicy, inputs: seq<Input>, i: nat)
    requires i <= |inputs| && inputs != [] && SpentAt(policy, inputs, i, RunOf(Last(inputs)))
    requires NeverRevived(policy, inputs, i, |inputs|, RunOf(Last(inputs)))
    ensures Answer(policy, inputs, true).decision == Kill
    ensures Last(inputs).auditOk ==> Answer(policy, inputs, true).reason.OverBudget?
  {
    hide Enforce, Evaluate, Budget.Plus;
    StaysSpentExactlyWhen(policy, inputs, i, |inputs|, RunOf(Last(inputs)));
    assert SpentAt(policy, inputs, |inputs|, RunOf(Last(inputs)));
    assert inputs[..|inputs|] == inputs;
    BudgetKillIsExact(policy, inputs);
    if Answer(policy, inputs, true).decision != Kill {
      BudgetSafety(policy, inputs);
    }
  }

  /** With the schema's non-negative costs nothing revives a run, so absorption is unconditional. */
  lemma NonNegativeCostsAbsorb(policy: CompiledPolicy, inputs: seq<Input>, i: nat)
    requires i <= |inputs| && inputs != [] && NonNegativeCosts(inputs)
    requires SpentAt(policy, inputs, i, RunOf(Last(inputs)))
    ensures Answer(policy, inputs, true).decision == Kill
  {
    hide Enforce, Evaluate, Budget.Plus, Totals;
    BudgetKillIsAbsorbing(policy, inputs, i);
  }

  // ---------------------------------------------------------------------
  // Other runs are invisible
  // ---------------------------------------------------------------------

  function Project(inputs: seq<Input>, runId: string): seq<Input> {
    if inputs == [] then []
    else if RunOf(Last(inputs)) == runId then Project(Front(inputs), runId) + [Last(inputs)]
    else Project(Front(inputs), runId)
  }

  /** Two engine states that a given run cannot tell apart. */
  ghost predicate SameFor(s: State, t: State, runId: string) {
    && (runId in s.budget <==> runId in t.budget)
    && Budget.StateOf(s.budget, runId) == Budget.StateOf(t.budget, runId)
    && LoopDetector.StateOf(s.loops, runId) == LoopDetector.StateOf(t.loops, runId)
  }

  lemma EvaluateOwnRun(policy: CompiledPolicy, s: State, t: State, req: Request, now: int)
    requires SameFor(s, t, req.runId)
    ensures var (l, r) := Evaluate(policy, s, req, now, true);
            var (m, q) := Evaluate(policy, t, req, now, true);
            r == q && LoopDetector.StateOf(l, req.runId) == LoopDetector.StateOf(m, req.runId)
  {
    hide LoopDetector.CheckRun, LoopResponse, RuleResponse;
  }

  lemma EnforceOwnRun(policy: CompiledPolicy, s: State, t: State, input: Input)
    requires SameFor(s, t, RunOf(input))
    ensures Enforce(policy, s, input, true).1 == Enforce(policy, t, input, true).1
    ensures SameFor(Enforce(policy, s, input, true).0, Enforce(policy, t, input, true).0, RunOf(input))
  {
    hide Enforce, Evaluate, Budget.Plus;
    EvaluateOwnRun(policy, s, t, input.req, input.now);
    EnforceBudget(policy, s, input, true);
    EnforceBudget(policy, t, input, true);
    EnforceParts(policy, s, input, true);
    EnforceParts(policy, t, input, true);
    if !input.auditOk || Budget.Exceeded(TotalAfter(s, input.req), policy.budget) {
      EnforceKillsAlike(policy, s, t, input, true, true);
    }
  }

  lemma EnforceOtherRun(policy: CompiledPolicy, s: State, input: Input, runId: string)
    requires RunOf(input) != runId
    ensures SameFor(Enforce(policy, s, input, true).0, s, runId)
  {
    hide Enforce, Evaluate, Budget.Plus;
    EnforceBudget(policy, s, input, true);
    EnforceParts(policy, s, input, true);
    EvaluateFrame(policy, s, input.req, input.now, true, runId);
  }

  lemma {:induction false} ProjectionIsSame(policy: CompiledPolicy, inputs: seq<Input>, runId: string)
    ensures SameFor(After(policy, inputs, true), After(policy, Project(inputs, runId), true), runId)
    decreases |inputs|
  {
    hide Enforce, Evaluate, Budget.Plus;
    if inputs != [] {
      var before, input := Front(inputs), Last(inputs);
      ProjectionIsSame(policy, before, runId);
      var s, t := After(policy, before, true), After(policy, Project(before, runId), true);
      if RunOf(input) == runId {
        EnforceOwnRun(policy, s, t, input);
        var p := Project(before, runId);
        assert Front(p + [input]) == p && Last(p + [input]) == input;
      } else {
        EnforceOtherRun(policy, s, input, runId);
      }
    }
  }

  /** Noninterference: a run is answered exactly as if it were the only run of the engine. */
  lemma RunsDoNotInterfere(policy: CompiledPolicy, inputs: seq<Input>)
    requires inputs != []
    ensures var alone := Project(inputs, RunOf(Last(inputs)));
            alone != [] && Answer(policy, inputs, true) == Answer(policy, alone, true)
  {
    hide Enforce, Evaluate, Budget.Plus;
    var before, input := Front(inputs), Last(inputs);
    var p := Project(before, RunOf(input));
    ProjectionIsSame(policy, before, RunOf(input));
    EnforceOwnRun(policy, After(policy, before, true), After(policy, p, true), input);
    assert Front(p + [input]) == p && Last(p + [input]) == input;
  }

  // ---------------------------------------------------------------------
  // The budget pre-check is observationally redundant
  // ---------------------------------------------------------------------

  ghost predicate Spent(policy: CompiledPolicy, s: State, runId: string) {
    runId in s.budget && Budget.Exceeded(s.budget[runId], policy.budget)
  }

  /**
   The simulation relation: same budgets and audit logs, and the same loop state for every run that
   is still within its caps. Loop states of spent runs may differ arbitrarily.
   */
  ghost predicate Related(policy: CompiledPolicy, s: State, t: State) {
    && s.budget == t.budget
    && s.audit == t.audit
    && forall r: string :: !Spent(policy, s, r) ==> LoopDetector.StateOf(s.loops, r) == LoopDetector.StateOf(t.loops, r)
  }

  lemma EvaluateAgrees(policy: CompiledPolicy, s: State, t: State, req: Request, now: int)
    requires Related(policy, s, t) && !Spent(policy, s, req.runId)
    ensures var (l, r) := Evaluate(policy, s, req, now, true);
            var (m, q) := Evaluate(policy, t, req, now, false);
            r == q && LoopDetector.StateOf(l, req.runId) == LoopDetector.StateOf(m, req.runId)
  {
    hide LoopDetector.CheckRun, LoopResponse, RuleResponse;
    assert LoopDetector.StateOf(s.loops, req.runId) == LoopDetector.StateOf(t.loops, req.runId);
  }

  lemma EvaluateFrame(policy: CompiledPolicy, s: State, req: Request, now: int, preCheck: bool, runId: string)
    requires runId != req.runId
    ensures LoopDetector.StateOf(Evaluate(policy, s, req, now, preCheck).0, runId) == LoopDetector.StateOf(s.loops, runId)
  {
  }

  lemma EnforceParts(policy: CompiledPolicy, s: State, input: Input, preCheck: bool)
    ensures Enforce(policy, s, input, preCheck).0.loops == Evaluate(policy, s, input.req, input.now, preCheck).0
  {
    hide Evaluate;
  }

  lemma EnforceAudit(policy: CompiledPolicy, s: State, t: State, input: Input, p: bool, q: bool)
    requires s.audit == t.audit && s.budget == t.budget
    requires Enforce(policy, s, input, p).1 == Enforce(policy, t, input, q).1
    ensures Enforce(policy, s, input, p).0.audit == Enforce(policy, t, input, q).0.audit
  {
    hide Evaluate;
  }

  /** The call takes its run from over a cap to within all caps. */
  ghost predicate RevivesRun(policy: CompiledPolicy, s: State, input: Input) {
    Spent(policy, s, RunOf(input)) && Budget.Revives(s.budget[RunOf(input)], UpdateOf(input.req), policy.budget)
  }

  lemma SpentStays(policy: CompiledPolicy, s: State, input: Input, preCheck: bool, runId: string)
    requires Spent(policy, s, runId) && !RevivesRun(policy, s, input)
    ensures Spent(policy, Enforce(policy, s, input, preCheck).0, runId)
  {
    hide Enforce, Evaluate, Budget.Plus;
    EnforceBudget(policy, s, input, preCheck);
    if RunOf(input) == runId {
      Budget.RevivesExactlyWhen(s.budget[runId], UpdateOf(input.req), policy.budget);
    }
  }

  lemma AnswersAgree(policy: CompiledPolicy, s: State, t: State, input: Input)
    requires Related(policy, s, t) && !RevivesRun(policy, s, input)
    ensures Enforce(policy, s, input, true).1 == Enforce(policy, t, input, false).1
  {
    hide Enforce, Evaluate, Budget.Plus;
    if Spent(policy, s, RunOf(input)) {
      SpentStays(policy, s, input, true, RunOf(input));
      SpentAnswer(policy, s, t, input);
    } else {
      EvaluateAgrees(policy, s, t, input.req, input.now);
      EnforceBudget(policy, s, input, true);
      EnforceBudget(policy, t, input, false);
      if !input.auditOk || Budget.Exceeded(TotalAfter(s, input.req), policy.budget) {
        EnforceKillsAlike(policy, s, t, input, true, false);
      }
    }
  }

  lemma SpentAnswer(policy: CompiledPolicy, s: State, t: State, input: Input)
    requires s.budget == t.budget && !RevivesRun(policy, s, input)
    requires Spent(policy, s, RunOf(input))
    ensures Enforce(policy, s, input, true).1 == Enforce(policy, t, input, false).1
  {
    hide Evaluate;
    Budget.RevivesExactlyWhen(s.budget[RunOf(input)], UpdateOf(input.req), policy.budget);
    EnforceKillsAlike(policy, s, t, input, true, false);
  }

  lemma RelationIsKept(policy: CompiledPolicy, s: State, t: State, input: Input)
    requires Related(policy, s, t) && !RevivesRun(policy, s, input)
    ensures Related(policy, Enforce(policy, s, input, true).0, Enforce(policy, t, input, false).0)
  {
    hide Enforce, Evaluate, Budget.Plus;
    var s', t' := Enforce(policy, s, input, true).0, Enforce(policy, t, input, false).0;
    EnforceBudget(policy, s, input, true);
    EnforceBudget(policy, t, input, false);
    AnswersAgree(policy, s, t, input);
    EnforceAudit(policy, s, t, input, true, false);
    EnforceParts(policy, s, input, true);
    EnforceParts(policy, t, input, false);
    forall r: string | !Spent(policy, s', r)
      ensures LoopDetector.StateOf(s'.loops, r) == LoopDetector.StateOf(t'.loops, r)
    {
      if Spent(policy, s, r) {
        SpentStays(policy, s, input, true, r);
      } else if r == RunOf(input) {
        EvaluateAgrees(policy, s, t, input.req, input.now);
      } else {
        EvaluateFrame(policy, s, input.req, input.now, true, r);
        EvaluateFrame(policy, t, input.req, input.now, false, r);
      }
    }
  }

  /** No call of the trace revives its run. */
  ghost predicate NothingRevives(policy: CompiledPolicy, inputs: seq<Input>) {
    forall j :: 0 <= j < |inputs| ==> !RevivedAt(policy, inputs, j, RunOf(inputs[j]))
  }

  lemma RevivesRunMeans(policy: CompiledPolicy, inputs: seq<Input>, preCheck: bool)
    requires inputs != []
    ensures RevivesRun(policy, After(policy, Front(inputs), preCheck), Last(inputs)) ==>
              RevivedAt(policy, inputs, |inputs| - 1, RunOf(Last(inputs)))
  {
    hide After, Totals, Budget.Revives;
    TotalsAreRecorded(policy, Front(inputs), preCheck, RunOf(Last(inputs)));
    assert inputs[..|inputs| - 1] == Front(inputs);
  }

  lemma NothingRevivesBefore(policy: CompiledPolicy, inputs: seq<Input>)
    requires inputs != [] && NothingRevives(policy, inputs)
    ensures NothingRevives(policy, Front(inputs))
  {
    forall j | 0 <= j < |inputs| - 1
      ensures !RevivedAt(policy, Front(inputs), j, RunOf(Front(inputs)[j]))
    {
      assert Front(inputs)[..j] == inputs[..j] && Front(inputs)[j] == inputs[j];
      assert !RevivedAt(policy, inputs, j, RunOf(inputs[j]));
    }
  }

  lemma {:induction false} RelatedThroughout(policy: CompiledPolicy, inputs: seq<Input>)
    requires NothingRevives(policy, inputs)
    ensures Related(policy, After(policy, inputs, true), After(policy, inputs, false))
    decreases |inputs|
  {
    hide Enforce, Evaluate, Budget.Plus, RevivedAt, RevivesRun;
    if inputs != [] {
      NothingRevivesBefore(policy, inputs);
      RelatedThroughout(policy, Front(inputs));
      RevivesRunMeans(policy, inputs, true);
      RelationIsKept(policy, After(policy, Front(inputs), true), After(policy, Front(inputs), false), Last(inputs));
    }
  }

  /**
   Over every interleaved trace in which no call revives a spent run, the engine with the pre-check
   and the engine without it give the same responses and write the same audit log, although their
   loop histories differ.
   */
  lemma PreCheckIsRedundant(policy: CompiledPolicy, inputs: seq<Input>)
    requires inputs != [] && NothingRevives(policy, inputs)
    ensures Answer(policy, inputs, true) == Answer(policy, inputs, false)
    ensures After(policy, inputs, true).audit == After(policy, inputs, false).audit
  {
    hide Enforce, Evaluate, Budget.Plus, RevivedAt, RevivesRun;
    NothingRevivesBefore(policy, inputs);
    RelatedThroughout(policy, Front(inputs));
    RelatedThroughout(policy, inputs);
    RevivesRunMeans(policy, inputs, true);
    AnswersAgree(policy, After(policy, Front(inputs), true), After(policy, Front(inputs), false), Last(inputs));
  }

  /** With the schema's non-negative costs that is every trace. */
  lemma NonNegativeCostsReviveNothing(policy: CompiledPolicy, inputs: seq<Input>)
    requires NonNegativeCosts(inputs)
    ensures NothingRevives(policy, inputs)
  {
    hide Totals;
  }

  lemma RevivalIsFromSpent(policy: CompiledPolicy, inputs: seq<Input>, j: nat, runId: string)
    requires j < |inputs| && RevivedAt(policy, inputs, j, runId)
    ensures SpentAt(policy, inputs, j, runId)
  {
    hide Totals;
  }

  /** And the condition is needed: an audited call that revives its run, and is no escalation, is where the two differ. */
  lemma PreCheckMattersAtRevival(policy: CompiledPolicy, inputs: seq<Input>)
    requires inputs != [] && Last(inputs).auditOk && Last(inputs).req.tool != ESCALATE_TOOL
    requires Called(Front(inputs), RunOf(Last(inputs)))
    requires RevivedAt(policy, inputs, |inputs| - 1, RunOf(Last(inputs)))
    ensures Answer(policy, inputs, true) != Answer(policy, inputs, false)
  {
    hide Enforce, Evaluate, Budget.Plus, Budget.Revives;
    var before, input := Front(inputs), Last(inputs);
    var s := After(policy, before, false);
    assert inputs[..|inputs| - 1] == before && inputs[..|inputs|] == inputs;
    RevivalIsFromSpent(policy, inputs, |inputs| - 1, RunOf(input));
    SpentStep(policy, inputs, |inputs| - 1, RunOf(input));
    BudgetKillIsExact(policy, inputs);
    TotalsAreRecorded(policy, before, false, RunOf(input));
    EnforceBudget(policy, s, input, false);
    EvaluateReason(policy, s, input.req, input.now, false);
  }

  // ---------------------------------------------------------------------
  // Counting allowed calls
  // ---------------------------------------------------------------------

  /** How many calls of the run have been answered with Allow. */
  function AllowCount(policy: CompiledPolicy, inputs: seq<Input>, runId: string): nat {
    if inputs == [] then 0
    else
      AllowCount(policy, Front(inputs), runId)
      + (if RunOf(Last(inputs)) == runId && Answer(policy, inputs, true).decision == Allow then 1 else 0)
  }

  lemma {:induction false} AllowsAreBounded(policy: CompiledPolicy, inputs: seq<Input>, runId: string)
    requires policy.budget.Some? && policy.budget.value.callCount.Some?
    ensures AllowCount(policy, inputs, runId) <= policy.budget.value.callCount.value.hard
    ensures AllowCount(policy, inputs, runId) <= Totals(inputs, runId).callCount
    decreases |inputs|
  {
    hide Enforce, Evaluate;
    if inputs != [] {
      AllowsAreBounded(policy, Front(inputs), runId);
      if RunOf(Last(inputs)) == runId && Answer(policy, inputs, true).decision == Allow {
        BudgetSafety(policy, inputs);
      }
    }
  }

  // ---------------------------------------------------------------------
  // The audit log records the answers
  // ---------------------------------------------------------------------

  function Decisions(audit: seq<AuditEntry>): seq<Response> {
    if audit == [] then []
    else Decisions(Front(audit)) + (if Last(audit).PolicyDecision? then [Last(audit).response] else [])
  }

  /** The answers to the calls whose audit write succeeded, in order. */
  function AuditedAnswers(policy: CompiledPolicy, inputs: seq<Input>): seq<Response> {
    if inputs == [] then []
    else AuditedAnswers(policy, Front(inputs)) + (if Last(inputs).auditOk then [Answer(policy, inputs, true)] else [])
  }

  lemma DecisionsAppend(audit: seq<AuditEntry>, entry: AuditEntry)
    ensures Decisions(audit + [entry]) == Decisions(audit) + (if entry.PolicyDecision? then [entry.response] else [])
  {
    assert Front(audit + [entry]) == audit && Last(audit + [entry]) == entry;
  }

  lemma EnforceAppends(policy: CompiledPolicy, s: State, input: Input)
    ensures var (s', r) := Enforce(policy, s, input, true);
            Decisions(s'.audit) == Decisions(s.audit) + (if input.auditOk then [r] else [])
  {
    hide Evaluate;
    var (s', r) := Enforce(policy, s, input, true);
    var decided := s.audit + [PolicyDecision(r, input.req.tool, input.req.argsHash)];
    DecisionsAppend(s.audit, PolicyDecision(r, input.req.tool, input.req.argsHash));
    if input.auditOk && s'.audit != decided {
      DecisionsAppend(decided, Last(s'.audit));
    }
  }

  /** The log's decision entries are exactly the answers given, and every unlogged answer is a kill. */
  lemma {:induction false} AuditIsComplete(policy: CompiledPolicy, inputs: seq<Input>)
    ensures Decisions(After(policy, inputs, true).audit) == AuditedAnswers(policy, inputs)
    ensures inputs != [] && !Last(inputs).auditOk ==> Answer(policy, inputs, true).decision == Kill
    decreases |inputs|
  {
    hide Enforce, Evaluate, Budget.Plus;
    if inputs != [] {
      AuditIsComplete(policy, Front(inputs));
      EnforceAppends(policy, After(policy, Front(inputs), true), Last(inputs));
      EnforceBudget(policy, After(policy, Front(inputs), true), Last(inputs), true);
    }
  }

  // ---------------------------------------------------------------------
  // Loop detection only ever judges repetition
  // ---------------------------------------------------------------------

  /** The run has made this very call before. */
  ghost predicate Made(inputs: seq<Input>, runId: string, tool: string, argsHash: string) {
    exists i :: 0 <= i < |inputs| && RunOf(inputs[i]) == runId
                && inputs[i].req.tool == tool && inputs[i].req.argsHash == argsHash
  }

  ghost predicate HistoryMade(history: seq<LoopDetector.CallEntry>, inputs: seq<Input>, runId: string) {
    forall k :: 0 <= k < |history| ==> Made(inputs, runId, history[k].tool, history[k].argsHash)
  }

  lemma {:induction false} PruneIsSuffix(h: seq<LoopDetector.CallEntry>, now: int, window: int)
    ensures forall e :: e in LoopDetector.Prune(h, now, window) ==> e in h
  {
    if h != [] && now - h[0].timestamp > window {
      PruneIsSuffix(h[1..], now, window);
    }
  }

  lemma CheckRunHistory(s: LoopDetector.RunLoopState, req: Request, now: int, config: LoopDetector.LoopConfig)
    ensures forall e :: e in LoopDetector.CheckRun(s, req.tool, req.argsHash, now, config).0.callHistory ==>
              e in s.callHistory || e == LoopDetector.CallEntry(req.tool, req.argsHash, now)
  {
    hide LoopDetector.Prune, LoopDetector.CountIdentical;
    PruneIsSuffix(s.callHistory + [LoopDetector.CallEntry(req.tool, req.argsHash, now)], now, LoopDetector.Window(config));
  }

  lemma EvaluateHistory(policy: CompiledPolicy, s: State, req: Request, now: int, runId: string)
    ensures forall e :: e in LoopDetector.StateOf(Evaluate(policy, s, req, now, true).0, runId).callHistory ==>
              || e in LoopDetector.StateOf(s.loops, runId).callHistory
              || (runId == req.runId && e.tool == req.tool && e.argsHash == req.argsHash)
  {
    hide LoopDetector.CheckRun, LoopResponse, RuleResponse, PreCheck;
    CheckRunHistory(LoopDetector.StateOf(s.loops, req.runId), req, now, policy.LoopConfig());
  }

  /** What the detector remembers of a run are calls that the run made. */
  lemma {:induction false} HistoryIsMade(policy: CompiledPolicy, inputs: seq<Input>, runId: string)
    ensures HistoryMade(LoopDetector.StateOf(After(policy, inputs, true).loops, runId).callHistory, inputs, runId)
    decreases |inputs|
  {
    hide Enforce, Evaluate;
    if inputs != [] {
      var before, input := Front(inputs), Last(inputs);
      var s := After(policy, before, true);
      HistoryIsMade(policy, before, runId);
      EnforceParts(policy, s, input, true);
      EvaluateHistory(policy, s, input.req, input.now, runId);
      var known := LoopDetector.StateOf(s.loops, runId).callHistory;
      var history := LoopDetector.StateOf(After(policy, inputs, true).loops, runId).callHistory;
      forall k | 0 <= k < |history|
        ensures Made(inputs, runId, history[k].tool, history[k].argsHash)
      {
        if history[k] in known {
          var j :| 0 <= j < |known| && known[j] == history[k];
          var i :| 0 <= i < |before| && RunOf(before[i]) == runId
                   && before[i].req.tool == history[k].tool && before[i].req.argsHash == history[k].argsHash;
          assert inputs[i] == before[i];
        } else {
          assert inputs[|inputs| - 1] == input;
        }
      }
    }
  }

  lemma {:induction false} NoneIdentical(h: seq<LoopDetector.CallEntry>, tool: string, argsHash: string)
    requires forall e :: e in h ==> e.tool != tool || e.argsHash != argsHash
    ensures LoopDetector.CountIdentical(h, tool, argsHash) == 0
  {
    if h != [] {
      assert forall e :: e in h[..|h| - 1] ==> e in h;
      NoneIdentical(h[..|h| - 1], tool, argsHash);
    }
  }

  /** Pruning the history with one new call in it leaves at most that call identical to it. */
  lemma {:induction false} AtMostOneIdentical(h: seq<LoopDetector.CallEntry>, e: LoopDetector.CallEntry, now: int, window: int)
    requires forall d :: d in h ==> d.tool != e.tool || d.argsHash != e.argsHash
    ensures LoopDetector.CountIdentical(LoopDetector.Prune(h + [e], now, window), e.tool, e.argsHash) <= 1
    decreases |h|
  {
    hide LoopDetector.CountIdentical;
    if now - (h + [e])[0].timestamp > window {
      if h == [] {
        assert (h + [e])[1..] == [];
        NoneIdentical([], e.tool, e.argsHash);
      } else {
        assert (h + [e])[1..] == h[1..] + [e];
        AtMostOneIdentical(h[1..], e, now, window);
      }
    } else {
      NoneIdentical(h, e.tool, e.argsHash);
      OneMore(h, e);
    }
  }

  lemma OneMore(h: seq<LoopDetector.CallEntry>, e: LoopDetector.CallEntry)
    ensures LoopDetector.CountIdentical(h + [e], e.tool, e.argsHash) == LoopDetector.CountIdentical(h, e.tool, e.argsHash) + 1
  {
    assert (h + [e])[..|h|] == h;
  }

  lemma NovelCheckPasses(s: LoopDetector.RunLoopState, req: Request, now: int, config: LoopDetector.LoopConfig)
    requires forall d :: d in s.callHistory ==> d.tool != req.tool || d.argsHash != req.argsHash
    requires config.callThreshold >= 2
    ensures LoopDetector.CheckRun(s, req.tool, req.argsHash, now, config).1 == LoopDetector.Ok
  {
    hide LoopDetector.Prune, LoopDetector.CountIdentical;
    AtMostOneIdentical(s.callHistory, LoopDetector.CallEntry(req.tool, req.argsHash, now), now, LoopDetector.Window(config));
  }

  lemma NovelEvaluation(policy: CompiledPolicy, s: State, req: Request, now: int)
    requires req.tool != ESCALATE_TOOL && policy.LoopConfig().callThreshold >= 2
    requires !Spent(policy, s, req.runId)
    requires forall d :: d in LoopDetector.StateOf(s.loops, req.runId).callHistory ==> d.tool != req.tool || d.argsHash != req.argsHash
    ensures Evaluate(policy, s, req, now, true).1 == RuleResponse(policy, req)
  {
    hide LoopDetector.CheckRun, RuleResponse;
    NovelCheckPasses(LoopDetector.StateOf(s.loops, req.runId), req, now, policy.LoopConfig());
  }

  /**
   A loop kill is not absorbing, and loop detection blocks nothing but repetition: in every trace a
   call that its run has not made before, within budget and audited, is answered by the rules alone.
   */
  lemma NovelCallIsJudgedByRules(policy: CompiledPolicy, inputs: seq<Input>)
    requires inputs != [] && Last(inputs).auditOk
    requires Last(inputs).req.tool != ESCALATE_TOOL && policy.LoopConfig().callThreshold >= 2
    requires !Made(Front(inputs), RunOf(Last(inputs)), Last(inputs).req.tool, Last(inputs).req.argsHash)
    requires !Budget.Exceeded(Totals(inputs, RunOf(Last(inputs))), policy.budget)
    requires Called(Front(inputs), RunOf(Last(inputs))) ==> !Budget.Exceeded(Totals(Front(inputs), RunOf(Last(inputs))), policy.budget)
    ensures Answer(policy, inputs, true) == RuleResponse(policy, Last(inputs).req)
  {
    hide Enforce, Evaluate, Budget.Plus, RuleResponse;
    var before, input := Front(inputs), Last(inputs);
    var s := After(policy, before, true);
    TotalsAreRecorded(policy, before, true, RunOf(input));
    EnforceBudget(policy, s, input, true);
    HistoryIsMade(policy, before, RunOf(input));
    NovelEvaluation(policy, s, input.req, input.now);
  }

  // ---------------------------------------------------------------------
  // Escalation to a human
  // ---------------------------------------------------------------------

  /** Evaluation never blocks the escalation tool, whatever the policy, budget or loop state. */
  lemma EvaluateAllowsEscalation(policy: CompiledPolicy, s: State, req: Request, now: int)
    requires req.tool == ESCALATE_TOOL
    ensures Evaluate(policy, s, req, now, true).1.decision == Allow
  {
  }

  /** The whole pipeline can still kill it: exactly when its own recording passes a cap or its audit write fails. */
  lemma EscalationIsAllowedExactlyWhen(policy: CompiledPolicy, inputs: seq<Input>)
    requires inputs != [] && Last(inputs).req.tool == ESCALATE_TOOL
    ensures Answer(policy, inputs, true).decision == Allow
       <==> Last(inputs).auditOk && !Budget.Exceeded(Totals(inputs, RunOf(Last(inputs))), policy.budget)
  {
    hide Enforce, Evaluate, Budget.Plus;
    var s, input := After(policy, Front(inputs), true), Last(inputs);
    TotalsAreRecorded(policy, Front(inputs), true, RunOf(input));
    EnforceBudget(policy, s, input, true);
    EvaluateAllowsEscalation(policy, s, input.req, input.now);
  }

  // ---------------------------------------------------------------------
  // Two promises that fail, on concrete inputs
  // ---------------------------------------------------------------------

  function SomeRequest(tool: string, cost: real): Request {
    Request(1, "run", 1, tool, "hash", None, None, None, None, None, None, Some(cost), None)
  }

  function SomePolicy(budget: Budget.BudgetConfig): CompiledPolicy {
    CompiledPolicy(Library(_ => true, (_, _) => true, _ => ""),
                   [Rule("allow-all", AllowAction, None, None, None, None, None)], Some(budget),
                   Some(LoopDetector.DEFAULT_CONFIG.(enabled := false)))
  }

  /** `escalate_to_human` is documented as never blocked; under a call cap of zero its first use is killed. */
  lemma EscalationCanBeKilled(policy: CompiledPolicy, input: Input)
    requires input.req.tool == ESCALATE_TOOL
    requires policy.budget == Some(Budget.BudgetConfig(None, None, None, Some(Budget.IntDimension(None, 0))))
    ensures Answer(policy, [input], true).decision == Kill
  {
    hide Enforce, Evaluate;
    assert Front([input]) == [];
    EnforceBudget(policy, INITIAL, input, true);
  }

  /** Without the schema's promise of non-negative costs, a spent run comes back to life. */
  lemma NegativeCostBreaksAbsorption()
    ensures var policy := SomePolicy(Budget.BudgetConfig(Some(Budget.FloatDimension(None, 1.0)), None, None, None));
            var first := Input(SomeRequest("tool", 2.0), 0, true, true);
            var refund := Input(SomeRequest("tool", -5.0), 1, true, true);
            var third := Input(SomeRequest("tool", 0.0), 2, true, true);
            && Budget.Exceeded(Totals([first], "run"), policy.budget)
            && Answer(policy, [first, refund, third], true).decision == Allow
  {
    var policy := SomePolicy(Budget.BudgetConfig(Some(Budget.FloatDimension(None, 1.0)), None, None, None));
    var first := Input(SomeRequest("tool", 2.0), 0, true, true);
    var refund := Input(SomeRequest("tool", -5.0), 1, true, true);
    var third := Input(SomeRequest("tool", 0.0), 2, true, true);
    var inputs := [first, refund, third];
    assert Front([first]) == [] && Front([first, refund]) == [first] && Front(inputs) == [first, refund];
    assert Totals([first], "run").costUsd == 2.0;
    assert Totals([first, refund], "run").costUsd == -3.0;
    TotalsAreRecorded(policy, [first, refund], true, "run");
    var s := After(policy, [first, refund], true);
    RefundedRunIsAllowed(policy, s, third);
  }

  lemma RefundedRunIsAllowed(policy: CompiledPolicy, s: State, input: Input)
    requires policy == SomePolicy(Budget.BudgetConfig(Some(Budget.FloatDimension(None, 1.0)), None, None, None))
    requires input == Input(SomeRequest("tool", 0.0), 2, true, true)
    requires "run" in s.budget && s.budget["run"].costUsd == -3.0
    ensures Enforce(policy, s, input, true).1.decision == Allow
  {
    hide Evaluate;
    EnforceBudget(policy, s, input, true);
    EvaluateRefunded(policy, s, input.req);
  }

  lemma EvaluateRefunded(policy: CompiledPolicy, s: State, req: Request)
    requires policy == SomePolicy(Budget.BudgetConfig(Some(Budget.FloatDimension(None, 1.0)), None, None, None))
    requires req == SomeRequest("tool", 0.0)
    requires "run" in s.budget && s.budget["run"].costUsd == -3.0
    ensures Evaluate(policy, s, req, 2, true).1.decision == Allow
  {
    hide LoopDetector.CheckRun, LoopResponse;
    assert |"tool"| != |ESCALATE_TOOL|;
    assert RuleMatches(policy.lib, policy.rules[0], req);
  }
}
