/**
 Policy packs: rule matching, conditions, validation, the stable priority sort, and the result that
 sorting and taking the first match picks the declaratively least matching rule.
 */
module Policy {
  import opened Wrappers
  import opened Json

  datatype RuleAction = AllowAction | DenyAction | RequireApprovalAction

  datatype Operator = Equals | NotEquals | Matches | NotMatches | In | NotIn

  datatype Condition = Condition(field: string, operator: Operator, value: Option<Json>, pattern: Option<string>)

  datatype Rule = Rule(
    name: string,
    action: RuleAction,
    tool: Option<string>,
    toolPattern: Option<string>,
    conditions: Option<seq<Condition>>,
    reason: Option<string>,
    priority: Option<int>)

  datatype Request = Request(
    schemaVersion: nat,
    runId: string,
    seqNo: nat,
    tool: string,
    argsHash: string,
    argsRedacted: Option<Json>,
    agentRole: Option<string>,
    agentName: Option<string>,
    model: Option<string>,
    inputTokens: Option<nat>,
    outputTokens: Option<nat>,
    estimatedCostUsd: Option<real>,
    environment: Option<string>)

  /** Library behaviour the engine relies on: glob syntax, glob matching, and printing a JSON value. */
  datatype Library = Library(globValid: string -> bool, globMatch: (string, string) -> bool, render: Json -> string)

  datatype PolicyError =
    | UnsupportedVersion(version: nat)
    | EmptyRules
    | ToolAndPatternBoth(rule: string)
    | InvalidGlob(rule: string)

  // ---------------------------------------------------------------------
  // Conditions
  // ---------------------------------------------------------------------

  function SplitDots(path: string): (parts: seq<string>)
    ensures parts != []
  {
    if path == "" then [""]
    else
      var rest := SplitDots(path[1..]);
      if path[0] == '.' then [""] + rest else [[path[0]] + rest[0]] + rest[1..]
  }

  function Walk(value: Json, parts: seq<string>): Option<Json>
    decreases |parts|
  {
    if parts == [] then Some(value)
    else if !value.Obj? then None
    else
      var next := Lookup(value.members, parts[0]);
      if next.None? then None else Walk(next.value, parts[1..])
  }

  /** The path-walking loop over the arguments. */
  method Navigate(value: Json, path: string) returns (r: Option<Json>)
    ensures r == Walk(value, SplitDots(path))
  {
    var parts := SplitDots(path);
    var current := value;
    for i := 0 to |parts|
      invariant Walk(current, parts[i..]) == Walk(value, parts)
    {
      if !current.Obj? {
        return None;
      }
      var next := Lookup(current.members, parts[i]);
      if next.None? {
        return None;
      }
      current := next.value;
      assert parts[i..][1..] == parts[i + 1..];
    }
    return Some(current);
  }

  function Leaf(lib: Library, found: Option<Json>): Option<string> {
    match found
    case None => None
    case Some(Str(s)) => Some(s)
    case Some(Num(text)) => Some(text)
    case Some(Bool(b)) => Some(if b then "true" else "false")
    case Some(Null) => None
    case Some(v) => Some(lib.render(v))
  }

  function ExtractField(lib: Library, field: string, req: Request): Option<string> {
    if field == "agent_role" then req.agentRole
    else if field == "environment" then req.environment
    else if field == "tool" then Some(req.tool)
    else if field == "agent_name" then req.agentName
    else if field == "model" then req.model
    else if field == "run_id" then Some(req.runId)
    else if "args." <= field && req.argsRedacted.Some? then
      Leaf(lib, Walk(req.argsRedacted.value, SplitDots(field[5..])))
    else None
  }

  function TextOr(v: Option<Json>, default: string): string {
    if v.Some? && v.value.Str? then v.value.s else default
  }

  function Strings(v: Option<Json>): set<string> {
    if v.Some? && v.value.Arr? then set j | j in v.value.items && j.Str? :: j.s else {}
  }

  /** A missing field fails every operator, the negated ones included. */
  predicate ConditionHolds(lib: Library, c: Condition, req: Request) {
    var field := ExtractField(lib, c.field, req);
    field.Some? &&
    var pattern := if c.pattern.Some? then c.pattern.value else TextOr(c.value, "");
    match c.operator
    case Equals => field.value == TextOr(c.value, "")
    case NotEquals => field.value != TextOr(c.value, "")
    case Matches => lib.globValid(pattern) && lib.globMatch(pattern, field.value)
    case NotMatches => lib.globValid(pattern) && !lib.globMatch(pattern, field.value)
    case In => field.value in Strings(c.value)
    case NotIn => field.value !in Strings(c.value)
  }

  predicate MatchesTool(lib: Library, rule: Rule, tool: string) {
    if rule.tool.Some? then rule.tool.value == tool
    else if rule.toolPattern.Some? then lib.globMatch(rule.toolPattern.value, tool)
    else true
  }

  predicate RuleMatches(lib: Library, rule: Rule, req: Request) {
    && MatchesTool(lib, rule, req.tool)
    && (rule.conditions.Some? ==> forall c | c in rule.conditions.value :: ConditionHolds(lib, c, req))
  }

  // What conditions mean, on the fields of the condition and the request themselves.

  /** Some element of the condition's array is this text. */
  ghost predicate Listed(c: Condition, text: string) {
    c.value.Some? && c.value.value.Arr? && exists i :: 0 <= i < |c.value.value.items| && c.value.value.items[i] == Str(text)
  }

  /** A missing field fails every operator; a present one is compared as the operator's name says. */
  lemma OperatorsMean(lib: Library, c: Condition, req: Request)
    ensures var field, holds := ExtractField(lib, c.field, req), ConditionHolds(lib, c, req);
            && (field.None? ==> !holds)
            && (field.Some? && c.operator == In ==> (holds <==> Listed(c, field.value)))
            && (field.Some? && c.operator == NotIn ==> (holds <==> !Listed(c, field.value)))
            && (field.Some? && c.value.Some? && c.value.value.Str? ==>
                  && (c.operator == Equals ==> (holds <==> field.value == c.value.value.s))
                  && (c.operator == NotEquals ==> (holds <==> field.value != c.value.value.s)))
            && (field.Some? && !(c.value.Some? && c.value.value.Str?) ==>
                  && (c.operator == Equals ==> (holds <==> field.value == ""))
                  && (c.operator == NotEquals ==> (holds <==> field.value != "")))
            && (field.Some? && c.pattern.Some? && !lib.globValid(c.pattern.value) ==>
                  (c.operator == Matches || c.operator == NotMatches ==> !holds))
            && (field.Some? && c.pattern.Some? && lib.globValid(c.pattern.value) ==>
                  && (c.operator == Matches ==> (holds <==> lib.globMatch(c.pattern.value, field.value)))
                  && (c.operator == NotMatches ==> (holds <==> !lib.globMatch(c.pattern.value, field.value))))
            && (field.Some? && c.pattern.None? && c.value.Some? && c.value.value.Str? && lib.globValid(c.value.value.s) ==>
                  && (c.operator == Matches ==> (holds <==> lib.globMatch(c.value.value.s, field.value)))
                  && (c.operator == NotMatches ==> (holds <==> !lib.globMatch(c.value.value.s, field.value))))
  {
    hide ExtractField;
    if c.value.Some? && c.value.value.Arr? {
      var items := c.value.value.items;
      forall text: string
        ensures text in Strings(c.value) <==> Listed(c, text)
      {
        if Listed(c, text) {
          assert Str(text) in items;
        }
      }
    }
  }

  /** Which part of the request each field name stands for. */
  lemma FieldsMean(lib: Library, req: Request)
    ensures ExtractField(lib, "agent_role", req) == req.agentRole
    ensures ExtractField(lib, "environment", req) == req.environment
    ensures ExtractField(lib, "tool", req) == Some(req.tool)
    ensures ExtractField(lib, "agent_name", req) == req.agentName
    ensures ExtractField(lib, "model", req) == req.model
    ensures ExtractField(lib, "run_id", req) == Some(req.runId)
  {
    hide Walk, SplitDots, Leaf;
    assert |"agent_role"| == 10 && |"environment"| == 11 && |"tool"| == 4 && |"agent_name"| == 10 && |"model"| == 5 && |"run_id"| == 6;
    assert "agent_role"[6] == 'r' && "agent_name"[6] == 'n';
  }

  /** Any other name reads nothing, unless it is a path into the arguments. */
  lemma PathsMean(lib: Library, path: string, req: Request)
    ensures ExtractField(lib, "args." + path, req)
         == if req.argsRedacted.None? then None else Leaf(lib, Walk(req.argsRedacted.value, SplitDots(path)))
    ensures Leaf(lib, None) == None && Leaf(lib, Some(Null)) == None
    ensures Leaf(lib, Some(Bool(true))) == Some("true") && Leaf(lib, Some(Bool(false))) == Some("false")
    ensures forall text :: Leaf(lib, Some(Str(text))) == Some(text) && Leaf(lib, Some(Num(text))) == Some(text)
  {
    hide Walk, SplitDots;
    var field := "args." + path;
    assert field[0] == 'a' && field[1] == 'r' && field[5..] == path;
    assert "agent_role"[1] == 'g' && "agent_name"[1] == 'g';
    assert "environment"[0] == 'e' && "tool"[0] == 't' && "model"[0] == 'm' && "run_id"[0] == 'r';
  }

  function JoinDots(parts: seq<string>): string
    requires parts != []
  {
    if |parts| == 1 then parts[0] else parts[0] + "." + JoinDots(parts[1..])
  }

  /** A path is split exactly at its dots. */
  lemma {:induction false} SplitDotsExactly(path: string)
    ensures JoinDots(SplitDots(path)) == path
    ensures forall i :: 0 <= i < |SplitDots(path)| ==> '.' !in SplitDots(path)[i]
  {
    if path != "" {
      SplitDotsExactly(path[1..]);
      var rest := SplitDots(path[1..]);
      assert path == [path[0]] + path[1..];
      if path[0] == '.' {
        assert ([""] + rest)[1..] == rest;
      } else {
        var parts := [[path[0]] + rest[0]] + rest[1..];
        assert parts[1..] == rest[1..];
        assert |rest| > 1 ==> ([path[0]] + rest[0]) + "." + JoinDots(rest[1..]) == [path[0]] + (rest[0] + "." + JoinDots(rest[1..]));
      }
    }
  }

  /** An exact tool name, else a glob, else any tool; and then every condition must hold. */
  lemma RuleMatchesMeans(lib: Library, rule: Rule, req: Request)
    ensures rule.tool.Some? && rule.tool.value != req.tool ==> !RuleMatches(lib, rule, req)
    ensures rule.tool.None? && rule.toolPattern.Some? && !lib.globMatch(rule.toolPattern.value, req.tool) ==> !RuleMatches(lib, rule, req)
    ensures rule.conditions.Some? && (exists c :: c in rule.conditions.value && !ConditionHolds(lib, c, req)) ==> !RuleMatches(lib, rule, req)
    ensures rule.conditions.None? && rule.tool == Some(req.tool) ==> RuleMatches(lib, rule, req)
    ensures rule.conditions.None? && rule.tool.None? && rule.toolPattern.None? ==> RuleMatches(lib, rule, req)
    ensures (rule.tool == Some(req.tool) || (rule.tool.None? && rule.toolPattern.Some? && lib.globMatch(rule.toolPattern.value, req.tool)))
            && (rule.conditions.Some? ==> forall c :: c in rule.conditions.value ==> ConditionHolds(lib, c, req))
            ==> RuleMatches(lib, rule, req)
  {
    hide ConditionHolds;
  }

  // ---------------------------------------------------------------------
  // First match
  // ---------------------------------------------------------------------

  /** Where the first matching rule of an ordered rule list stands, or None when no rule matches. */
  function FirstMatch(lib: Library, rules: seq<Rule>, req: Request): (r: Option<nat>)
    ensures r.Some? ==> r.value < |rules| && RuleMatches(lib, rules[r.value], req)
    ensures forall j: nat :: j < (if r.Some? then r.value else |rules|) ==> !RuleMatches(lib, rules[j], req)
    decreases |rules|
  {
    if rules == [] then None
    else if RuleMatches(lib, rules[0], req) then Some(0)
    else
      var rest := FirstMatch(lib, rules[1..], req);
      assert forall j: nat :: 0 < j < |rules| ==> rules[j] == rules[1..][j - 1];
      if rest.None? then None else Some(rest.value + 1)
  }

  // ---------------------------------------------------------------------
  // The stable priority sort
  // ---------------------------------------------------------------------

  /** Strictly earlier by priority: explicit priorities first, smaller numbers before larger. */
  predicate Before(a: Rule, b: Rule) {
    match (a.priority, b.priority)
    case (Some(p), Some(q)) => p < q
    case (Some(_), None) => true
    case (None, _) => false
  }

  /** `Before` orders rules by class; rules it does not separate form one class. */
  lemma BeforeIsStrictWeakOrder(a: Rule, b: Rule, c: Rule)
    ensures !Before(a, a)
    ensures Before(a, b) && Before(b, c) ==> Before(a, c)
    ensures !Before(a, b) && !Before(b, c) ==> !Before(a, c)
  {
  }

  /** Earlier by priority, then by position in the policy file. */
  predicate Precedes(rules: seq<Rule>, i: nat, j: nat)
    requires i < |rules| && j < |rules|
  {
    Before(rules[i], rules[j]) || (!Before(rules[j], rules[i]) && i < j)
  }

  /** `Precedes` is a strict total order on the positions of a policy file. */
  lemma PrecedesIsTotalOrder(rules: seq<Rule>, i: nat, j: nat, k: nat)
    requires i < |rules| && j < |rules| && k < |rules|
    ensures !Precedes(rules, i, i)
    ensures i != j ==> (Precedes(rules, i, j) <==> !Precedes(rules, j, i))
    ensures Precedes(rules, i, j) && Precedes(rules, j, k) ==> Precedes(rules, i, k)
  {
    hide Before;
    BeforeIsStrictWeakOrder(rules[i], rules[j], rules[k]);
    BeforeIsStrictWeakOrder(rules[i], rules[k], rules[j]);
    BeforeIsStrictWeakOrder(rules[j], rules[i], rules[k]);
    BeforeIsStrictWeakOrder(rules[j], rules[i], rules[j]);
    BeforeIsStrictWeakOrder(rules[k], rules[i], rules[j]);
    BeforeIsStrictWeakOrder(rules[k], rules[j], rules[i]);
  }

  ghost predicate Ordered(rules: seq<Rule>, order: seq<nat>) {
    && (forall a :: 0 <= a < |order| ==> order[a] < |rules|)
    && (forall a, b :: 0 <= a < b < |order| ==> Precedes(rules, order[a], order[b]))
  }

  /** Put rule `k` behind every earlier rule that it does not strictly precede. */
  function InsertIndex(rules: seq<Rule>, order: seq<nat>, k: nat): (r: seq<nat>)
    requires k < |rules| && forall a :: 0 <= a < |order| ==> order[a] < |rules|
    ensures forall x :: x in r <==> x in order || x == k
    ensures |r| == |order| + 1
  {
    if order == [] || !Before(rules[k], rules[order[|order| - 1]]) then order + [k]
    else InsertIndex(rules, order[..|order| - 1], k) + [order[|order| - 1]]
  }

  lemma {:induction false} InsertKeepsOrdered(rules: seq<Rule>, order: seq<nat>, k: nat)
    requires k < |rules| && Ordered(rules, order)
    requires forall a :: 0 <= a < |order| ==> order[a] < k
    ensures Ordered(rules, InsertIndex(rules, order, k))
  {
    var r := InsertIndex(rules, order, k);
    if order == [] {
    } else {
      var last := order[|order| - 1];
      if !Before(rules[k], rules[last]) {
        forall a | 0 <= a < |order|
          ensures Precedes(rules, order[a], k)
        {
          if a < |order| - 1 {
            PrecedesIsTotalOrder(rules, order[a], last, k);
          }
        }
      } else {
        var front := order[..|order| - 1];
        InsertKeepsOrdered(rules, front, k);
        var rest := InsertIndex(rules, front, k);
        forall a | 0 <= a < |rest|
          ensures Precedes(rules, rest[a], last)
        {
          assert rest[a] in rest;
        }
      }
    }
  }

  function SortOrder(rules: seq<Rule>, n: nat): (order: seq<nat>)
    requires n <= |rules|
    ensures forall a :: 0 <= a < |order| ==> order[a] < n
    ensures forall x: nat :: x < n ==> x in order
    ensures |order| == n
  {
    if n == 0 then []
    else
      var before := SortOrder(rules, n - 1);
      var r := InsertIndex(rules, before, n - 1);
      assert forall a :: 0 <= a < |r| ==> r[a] in r;
      r
  }

  lemma {:induction false} SortOrderIsOrdered(rules: seq<Rule>, n: nat)
    requires n <= |rules|
    ensures Ordered(rules, SortOrder(rules, n))
  {
    if n > 0 {
      SortOrderIsOrdered(rules, n - 1);
      InsertKeepsOrdered(rules, SortOrder(rules, n - 1), n - 1);
    }
  }

  function Pick(rules: seq<Rule>, order: seq<nat>): (r: seq<Rule>)
    requires forall a :: 0 <= a < |order| ==> order[a] < |rules|
    ensures |r| == |order| && forall a :: 0 <= a < |r| ==> r[a] == rules[order[a]]
  {
    if order == [] then [] else Pick(rules, order[..|order| - 1]) + [rules[order[|order| - 1]]]
  }

  /** The compiled rule list: a stable sort of the policy file's rules by priority. */
  function SortRules(rules: seq<Rule>): seq<Rule> {
    Pick(rules, SortOrder(rules, |rules|))
  }

  /** The sort neither drops nor repeats a rule. */
  lemma SortOrderIsPermutation(rules: seq<Rule>)
    ensures var order := SortOrder(rules, |rules|);
            |order| == |rules| && forall a, b :: 0 <= a < b < |order| ==> order[a] != order[b]
  {
    SortOrderIsOrdered(rules, |rules|);
  }

  /** Rule `k` decides: it matches and precedes every other rule that matches. */
  ghost predicate Decides(lib: Library, rules: seq<Rule>, k: nat, req: Request) {
    && k < |rules| && RuleMatches(lib, rules[k], req)
    && forall j: nat :: j < |rules| && j != k && RuleMatches(lib, rules[j], req) ==> Precedes(rules, k, j)
  }

  lemma DecidingRuleIsUnique(lib: Library, rules: seq<Rule>, k: nat, l: nat, req: Request)
    requires Decides(lib, rules, k, req) && Decides(lib, rules, l, req)
    ensures k == l
  {
    hide Precedes;
    PrecedesIsTotalOrder(rules, k, l, k);
  }

  /** Rule `k` decides, and no other does. */
  ghost predicate TheDecider(lib: Library, rules: seq<Rule>, k: nat, req: Request) {
    Decides(lib, rules, k, req) && forall l: nat :: Decides(lib, rules, l, req) ==> l == k
  }

  /**
   Main result: the first match in the sorted list is the one rule that decides by priority and file
   position, and there is no match exactly when no rule of the file matches.
   */
  lemma FirstMatchDecides(lib: Library, rules: seq<Rule>, req: Request)
    ensures var m := FirstMatch(lib, SortRules(rules), req);
            && (m.None? <==> forall j: nat :: j < |rules| ==> !RuleMatches(lib, rules[j], req))
            && (m.Some? ==> exists k: nat :: TheDecider(lib, rules, k, req) && SortRules(rules)[m.value] == rules[k]
                                          && LeastMatch(lib, rules, k, req))
  {
    var order := SortOrder(rules, |rules|);
    var sorted := SortRules(rules);
    var m := FirstMatch(lib, sorted, req);
    SortOrderIsOrdered(rules, |rules|);
    if m.None? {
      forall j: nat | j < |rules|
        ensures !RuleMatches(lib, rules[j], req)
      {
        assert j in order;
        var a :| 0 <= a < |order| && order[a] == j;
        assert sorted[a] == rules[j];
      }
    } else {
      var k := order[m.value];
      forall j: nat | j < |rules| && j != k && RuleMatches(lib, rules[j], req)
        ensures Precedes(rules, k, j)
      {
        assert j in order;
        var b :| 0 <= b < |order| && order[b] == j;
        assert sorted[b] == rules[j];
      }
      assert Decides(lib, rules, k, req);
      forall l: nat | Decides(lib, rules, l, req)
        ensures l == k
      {
        DecidingRuleIsUnique(lib, rules, k, l, req);
      }
      assert TheDecider(lib, rules, k, req);
      DecidesOnFields(lib, rules, k, req);
    }
  }

  /**
   The same on the fields of the rules: the deciding rule matches, and every other matching rule has
   no priority where it has one, a larger priority number, or the same standing and a later place.
   */
  ghost predicate LeastMatch(lib: Library, rules: seq<Rule>, k: nat, req: Request) {
    && k < |rules| && RuleMatches(lib, rules[k], req)
    && forall j: nat :: j < |rules| && j != k && RuleMatches(lib, rules[j], req) ==>
         var p, q := rules[k].priority, rules[j].priority;
         || (p.Some? && q.None?)
         || (p.Some? && q.Some? && p.value < q.value)
         || (p == q && k < j)
  }

  lemma DecidesOnFields(lib: Library, rules: seq<Rule>, k: nat, req: Request)
    ensures Decides(lib, rules, k, req) <==> LeastMatch(lib, rules, k, req)
  {
    hide RuleMatches;
  }

  /** Rules with a priority come first, in order of their numbers. */
  ghost predicate InPriorityOrder(rules: seq<Rule>) {
    forall a, b :: 0 <= a < b < |rules| && rules[b].priority.Some? ==>
      rules[a].priority.Some? && rules[a].priority.value <= rules[b].priority.value
  }

  lemma SortedInPriorityOrder(rules: seq<Rule>)
    ensures InPriorityOrder(SortRules(rules))
  {
    SortOrderIsOrdered(rules, |rules|);
    var order, sorted := SortOrder(rules, |rules|), SortRules(rules);
    forall a, b | 0 <= a < b < |sorted| && sorted[b].priority.Some?
      ensures sorted[a].priority.Some? && sorted[a].priority.value <= sorted[b].priority.value
    {
      assert Precedes(rules, order[a], order[b]);
    }
  }

  // ---------------------------------------------------------------------
  // Validation
  // ---------------------------------------------------------------------

  function RuleError(lib: Library, rule: Rule): Option<PolicyError> {
    if rule.tool.Some? && rule.toolPattern.Some? then Some(ToolAndPatternBoth(rule.name))
    else if rule.toolPattern.Some? && !lib.globValid(rule.toolPattern.value) then Some(InvalidGlob(rule.name))
    else None
  }

  /** Validation stops at the first faulty rule; a valid pack compiles to its sorted rules. */
  method ValidateAndCompile(lib: Library, version: nat, rules: seq<Rule>) returns (r: Result<seq<Rule>, PolicyError>)
    ensures version != 1 ==> r == Failure(UnsupportedVersion(version))
    ensures version == 1 && rules == [] ==> r == Failure(EmptyRules)
    ensures version == 1 && rules != [] && r.Failure? ==>
              exists i :: 0 <= i < |rules| && RuleError(lib, rules[i]) == Some(r.error)
                && forall j :: 0 <= j < i ==> RuleError(lib, rules[j]) == None
    ensures r.Success? ==> InPriorityOrder(r.value)
    ensures r.Success? ==> version == 1 && rules != [] && r.value == SortRules(rules)
                           && forall i :: 0 <= i < |rules| ==> RuleError(lib, rules[i]) == None
  {
    if version != 1 {
      return Failure(UnsupportedVersion(version));
    }
    if rules == [] {
      return Failure(EmptyRules);
    }
    for i := 0 to |rules|
      invariant forall j :: 0 <= j < i ==> RuleError(lib, rules[j]) == None
    {
      var rule := rules[i];
      if rule.tool.Some? && rule.toolPattern.Some? {
        return Failure(ToolAndPatternBoth(rule.name));
      }
      if rule.toolPattern.Some? {
        if !lib.globValid(rule.toolPattern.value) {
          return Failure(InvalidGlob(rule.name));
        }
      }
    }
    SortedInPriorityOrder(rules);
    return Success(SortRules(rules));
  }
}
