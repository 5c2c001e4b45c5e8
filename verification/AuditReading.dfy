/**
 Nothing is lost in an audit line: every field can be read back from it under its own name, and two
 different events never have the same payload.
 */
module AuditReading {
  import opened Wrappers
  import opened Json
  import opened JsonText
  import opened AuditEvent
  import opened AuditChain
  import Decimal

  // ---------------------------------------------------------------------
  // The field names are different
  // ---------------------------------------------------------------------

  /** A number that tells the field names apart: their length, first and next-to-last characters. */
  function Code(name: string): int {
    if |name| < 2 then 0 else 1_000_000 * |name| + 1000 * (name[0] as int) + name[|name| - 2] as int
  }

  /** The place of each optional field, by the code of its name. */
  function Place(code: int): int {
    if code == 4116111 then 0
    else if code == 9097115 then 1
    else if code == 13097101 then 2
    else if code == 8100111 then 3
    else if code == 7114105 then 4
    else if code == 6114111 then 5
    else if code == 10097109 then 6
    else if code == 10097108 then 7
    else if code == 5109101 then 8
    else if code == 12105110 then 9
    else if code == 13111110 then 10
    else if code == 18101115 then 11
    else if code == 11101110 then 12
    else if code == 10114117 then 13
    else if code == 9100111 then 14
    else if code == 9108108 then 15
    else if code == 11108111 then 16
    else if code == 11099109 then 17
    else if code == 6098101 then 18
    else if code == 10108109 then 19
    else if code == 14112105 then 20
    else if code == 20099110 then 21
    else if code == 13105109 then 22
    else if code == 16116116 then 23
    else if code == 16112115 then 24
    else -1
  }

  lemma Names1(e: Event)
    ensures var fields := OptionalFields(e);
            && fields[0] == Field("tool", OptText(e.tool))
            && fields[1] == Field("args_hash", OptText(e.argsHash))
            && fields[2] == Field("args_redacted", e.argsRedacted)
  {
    hide OptText, OptNat, OptFloat;
  }

  lemma Names2(e: Event)
    ensures var fields := OptionalFields(e);
            && fields[3] == Field("decision", OptText(e.decision))
            && fields[4] == Field("rule_id", OptText(e.ruleId))
            && fields[5] == Field("reason", OptText(e.reason))
  {
    hide OptText, OptNat, OptFloat;
  }

  lemma Names3(e: Event)
    ensures var fields := OptionalFields(e);
            && fields[6] == Field("agent_name", OptText(e.agentName))
            && fields[7] == Field("agent_role", OptText(e.agentRole))
            && fields[8] == Field("model", OptText(e.model))
  {
    hide OptText, OptNat, OptFloat;
  }

  lemma Names4(e: Event)
    ensures var fields := OptionalFields(e);
            && fields[9] == Field("input_tokens", OptNat(e.inputTokens))
            && fields[10] == Field("output_tokens", OptNat(e.outputTokens))
            && fields[11] == Field("estimated_cost_usd", OptFloat(e.estimatedCostUsd))
  {
    hide OptText, OptNat, OptFloat;
  }

  lemma Names5(e: Event)
    ensures var fields := OptionalFields(e);
            && fields[12] == Field("environment", OptText(e.environment))
            && fields[13] == Field("run_status", OptText(e.runStatus))
            && fields[14] == Field("dimension", OptText(e.dimension))
  {
    hide OptText, OptNat, OptFloat;
  }

  lemma Names6(e: Event)
    ensures var fields := OptionalFields(e);
            && fields[15] == Field("loop_rule", OptText(e.loopRule))
            && fields[16] == Field("loop_action", OptText(e.loopAction))
            && fields[17] == Field("cooldown_ms", OptNat(e.cooldownMs))
  {
    hide OptText, OptNat, OptFloat;
  }

  lemma Names7(e: Event)
    ensures var fields := OptionalFields(e);
            && fields[18] == Field("budget", e.budget)
            && fields[19] == Field("latency_ms", OptFloat(e.latencyMs))
            && fields[20] == Field("policy_pack_id", OptText(e.policyPackId))
  {
    hide OptText, OptNat, OptFloat;
  }

  lemma Names8(e: Event)
    ensures var fields := OptionalFields(e);
            && fields[21] == Field("call_seq_fingerprint", OptText(e.callSeqFingerprint))
            && fields[22] == Field("inter_call_ms", OptNat(e.interCallMs))
            && fields[23] == Field("token_rate_delta", OptFloat(e.tokenRateDelta))
  {
    hide OptText, OptNat, OptFloat;
  }

  lemma Names9(e: Event)
    ensures var fields := OptionalFields(e);
            && fields[24] == Field("param_shape_hash", OptText(e.paramShapeHash))
  {
    hide OptText, OptNat, OptFloat;
  }

  lemma Places1()
    ensures Place(Code("tool")) == 0 && Place(Code("args_hash")) == 1 && Place(Code("args_redacted")) == 2
  {
  }

  lemma Places2()
    ensures Place(Code("decision")) == 3 && Place(Code("rule_id")) == 4 && Place(Code("reason")) == 5
  {
  }

  lemma Places3()
    ensures Place(Code("agent_name")) == 6 && Place(Code("agent_role")) == 7 && Place(Code("model")) == 8
  {
  }

  lemma Places4()
    ensures Place(Code("input_tokens")) == 9 && Place(Code("output_tokens")) == 10 && Place(Code("estimated_cost_usd")) == 11
  {
  }

  lemma Places5()
    ensures Place(Code("environment")) == 12 && Place(Code("run_status")) == 13 && Place(Code("dimension")) == 14
  {
  }

  lemma Places6()
    ensures Place(Code("loop_rule")) == 15 && Place(Code("loop_action")) == 16 && Place(Code("cooldown_ms")) == 17
  {
  }

  lemma Places7()
    ensures Place(Code("budget")) == 18 && Place(Code("latency_ms")) == 19 && Place(Code("policy_pack_id")) == 20
  {
  }

  lemma Places8()
    ensures Place(Code("call_seq_fingerprint")) == 21 && Place(Code("inter_call_ms")) == 22 && Place(Code("token_rate_delta")) == 23
  {
  }

  lemma Places9()
    ensures Place(Code("param_shape_hash")) == 24
  {
  }

  lemma FieldCount(e: Event)
    ensures |OptionalFields(e)| == 25
  {
    hide OptText, OptNat, OptFloat;
  }

  /** The name of each optional field is the same in every event, and tells its place. */
  lemma NamesPlaced(e: Event, i: nat)
    requires i < 25
    ensures |OptionalFields(e)| == 25 && Place(Code(OptionalFields(e)[i].name)) == i
  {
    hide OptionalFields, Code, Place;
    FieldCount(e);
    if i < 3 {
      Names1(e);
      Places1();
    } else if i < 6 {
      Names2(e);
      Places2();
    } else if i < 9 {
      Names3(e);
      Places3();
    } else if i < 12 {
      Names4(e);
      Places4();
    } else if i < 15 {
      Names5(e);
      Places5();
    } else if i < 18 {
      Names6(e);
      Places6();
    } else if i < 21 {
      Names7(e);
      Places7();
    } else if i < 24 {
      Names8(e);
      Places8();
    } else if i < 25 {
      Names9(e);
      Places9();
    }
  }

  lemma SameNames(e: Event, f: Event, i: nat)
    requires i < 25
    ensures |OptionalFields(e)| == 25 == |OptionalFields(f)| && OptionalFields(e)[i].name == OptionalFields(f)[i].name
  {
    hide OptionalFields;
    FieldCount(e);
    FieldCount(f);
    if i < 3 {
      Names1(e);
      Names1(f);
    } else if i < 6 {
      Names2(e);
      Names2(f);
    } else if i < 9 {
      Names3(e);
      Names3(f);
    } else if i < 12 {
      Names4(e);
      Names4(f);
    } else if i < 15 {
      Names5(e);
      Names5(f);
    } else if i < 18 {
      Names6(e);
      Names6(f);
    } else if i < 21 {
      Names7(e);
      Names7(f);
    } else if i < 24 {
      Names8(e);
      Names8(f);
    } else if i < 25 {
      Names9(e);
      Names9(f);
    }
  }

  ghost predicate DistinctNames(fields: seq<Field>) {
    forall i, j :: 0 <= i < j < |fields| ==> fields[i].name != fields[j].name
  }

  lemma NamesDiffer(e: Event)
    ensures DistinctNames(OptionalFields(e))
  {
    hide OptionalFields, Code, Place;
    var fields := OptionalFields(e);
    FieldCount(e);
    forall i | 0 <= i < 25
      ensures Place(Code(fields[i].name)) == i
    {
      NamesPlaced(e, i);
    }
  }

  // ---------------------------------------------------------------------
  // Reading fields back
  // ---------------------------------------------------------------------

  lemma {:induction false} PresentKeys(fields: seq<Field>, key: string)
    requires forall i :: 0 <= i < |fields| ==> fields[i].name != key
    ensures Lookup(Present(fields), key) == None
  {
    if fields != [] {
      PresentKeys(fields[1..], key);
      var first := if fields[0].value.Some? then [Member(fields[0].name, fields[0].value.value)] else [];
      LookupSkips(first, Present(fields[1..]), key);
    }
  }

  lemma {:induction false} PresentLookup(fields: seq<Field>, k: nat)
    requires k < |fields| && DistinctNames(fields)
    ensures Lookup(Present(fields), fields[k].name) == fields[k].value
  {
    var first := if fields[0].value.Some? then [Member(fields[0].name, fields[0].value.value)] else [];
    var rest := Present(fields[1..]);
    if k > 0 {
      PresentLookup(fields[1..], k - 1);
      LookupSkips(first, rest, fields[k].name);
    } else if fields[0].value.None? {
      PresentKeys(fields[1..], fields[0].name);
      assert first + rest == rest;
    }
  }

  /** A line holds every optional field under its own name, and nothing under the name of an absent one. */
  lemma OptionalReadBack(e: Event, hash: Option<string>, hashPrev: Option<string>, k: nat)
    requires k < 25
    ensures |OptionalFields(e)| == 25
    ensures Lookup(Fields(e, hash, hashPrev), OptionalFields(e)[k].name) == OptionalFields(e)[k].value
  {
    hide OptionalFields, Code, Place, Present, Lookup;
    var fields := OptionalFields(e);
    FieldCount(e);
    var name := fields[k].name;
    NamesPlaced(e, k);
    NamesDiffer(e);
    PresentLookup(fields, k);
    OtherNames();
    var front := Head(e) + Optional("hash", hash) + Optional("hash_prev", hashPrev) + [Member("ts", Str(e.ts))];
    assert Fields(e, hash, hashPrev) == front + Present(fields);
    forall i | 0 <= i < |front|
      ensures front[i].key != name
    {
      FrontKeys(e, hash, hashPrev, i);
    }
    LookupSkips(front, Present(fields), name);
  }

  lemma ReadBack1(e: Event, hash: Option<string>, hashPrev: Option<string>)
    ensures var line := Fields(e, hash, hashPrev);
            && Lookup(line, "tool") == OptText(e.tool)
            && Lookup(line, "args_hash") == OptText(e.argsHash)
            && Lookup(line, "args_redacted") == e.argsRedacted
  {
    hide OptionalFields, Fields, Lookup;
    Names1(e);
    OptionalReadBack(e, hash, hashPrev, 0);
    OptionalReadBack(e, hash, hashPrev, 1);
    OptionalReadBack(e, hash, hashPrev, 2);
  }

  lemma ReadBack2(e: Event, hash: Option<string>, hashPrev: Option<string>)
    ensures var line := Fields(e, hash, hashPrev);
            && Lookup(line, "decision") == OptText(e.decision)
            && Lookup(line, "rule_id") == OptText(e.ruleId)
            && Lookup(line, "reason") == OptText(e.reason)
  {
    hide OptionalFields, Fields, Lookup;
    Names2(e);
    OptionalReadBack(e, hash, hashPrev, 3);
    OptionalReadBack(e, hash, hashPrev, 4);
    OptionalReadBack(e, hash, hashPrev, 5);
  }

  lemma ReadBack3(e: Event, hash: Option<string>, hashPrev: Option<string>)
    ensures var line := Fields(e, hash, hashPrev);
            && Lookup(line, "agent_name") == OptText(e.agentName)
            && Lookup(line, "agent_role") == OptText(e.agentRole)
            && Lookup(line, "model") == OptText(e.model)
  {
    hide OptionalFields, Fields, Lookup;
    Names3(e);
    OptionalReadBack(e, hash, hashPrev, 6);
    OptionalReadBack(e, hash, hashPrev, 7);
    OptionalReadBack(e, hash, hashPrev, 8);
  }

  lemma ReadBack4(e: Event, hash: Option<string>, hashPrev: Option<string>)
    ensures var line := Fields(e, hash, hashPrev);
            && Lookup(line, "input_tokens") == OptNat(e.inputTokens)
            && Lookup(line, "output_tokens") == OptNat(e.outputTokens)
            && Lookup(line, "estimated_cost_usd") == OptFloat(e.estimatedCostUsd)
  {
    hide OptionalFields, Fields, Lookup;
    Names4(e);
    OptionalReadBack(e, hash, hashPrev, 9);
    OptionalReadBack(e, hash, hashPrev, 10);
    OptionalReadBack(e, hash, hashPrev, 11);
  }

  lemma ReadBack5(e: Event, hash: Option<string>, hashPrev: Option<string>)
    ensures var line := Fields(e, hash, hashPrev);
            && Lookup(line, "environment") == OptText(e.environment)
            && Lookup(line, "run_status") == OptText(e.runStatus)
            && Lookup(line, "dimension") == OptText(e.dimension)
  {
    hide OptionalFields, Fields, Lookup;
    Names5(e);
    OptionalReadBack(e, hash, hashPrev, 12);
    OptionalReadBack(e, hash, hashPrev, 13);
    OptionalReadBack(e, hash, hashPrev, 14);
  }

  lemma ReadBack6(e: Event, hash: Option<string>, hashPrev: Option<string>)
    ensures var line := Fields(e, hash, hashPrev);
            && Lookup(line, "loop_rule") == OptText(e.loopRule)
            && Lookup(line, "loop_action") == OptText(e.loopAction)
            && Lookup(line, "cooldown_ms") == OptNat(e.cooldownMs)
  {
    hide OptionalFields, Fields, Lookup;
    Names6(e);
    OptionalReadBack(e, hash, hashPrev, 15);
    OptionalReadBack(e, hash, hashPrev, 16);
    OptionalReadBack(e, hash, hashPrev, 17);
  }

  lemma ReadBack7(e: Event, hash: Option<string>, hashPrev: Option<string>)
    ensures var line := Fields(e, hash, hashPrev);
            && Lookup(line, "budget") == e.budget
            && Lookup(line, "latency_ms") == OptFloat(e.latencyMs)
            && Lookup(line, "policy_pack_id") == OptText(e.policyPackId)
  {
    hide OptionalFields, Fields, Lookup;
    Names7(e);
    OptionalReadBack(e, hash, hashPrev, 18);
    OptionalReadBack(e, hash, hashPrev, 19);
    OptionalReadBack(e, hash, hashPrev, 20);
  }

  lemma ReadBack8(e: Event, hash: Option<string>, hashPrev: Option<string>)
    ensures var line := Fields(e, hash, hashPrev);
            && Lookup(line, "call_seq_fingerprint") == OptText(e.callSeqFingerprint)
            && Lookup(line, "inter_call_ms") == OptNat(e.interCallMs)
            && Lookup(line, "token_rate_delta") == OptFloat(e.tokenRateDelta)
  {
    hide OptionalFields, Fields, Lookup;
    Names8(e);
    OptionalReadBack(e, hash, hashPrev, 21);
    OptionalReadBack(e, hash, hashPrev, 22);
    OptionalReadBack(e, hash, hashPrev, 23);
  }

  lemma ReadBack9(e: Event, hash: Option<string>, hashPrev: Option<string>)
    ensures var line := Fields(e, hash, hashPrev);
            && Lookup(line, "param_shape_hash") == OptText(e.paramShapeHash)
  {
    hide OptionalFields, Fields, Lookup;
    Names9(e);
    OptionalReadBack(e, hash, hashPrev, 24);
  }

  /** Every field of a line is under the name that the log format gives it; absent fields are absent. */
  lemma LineReadsBack(e: Event, hash: Option<string>, hashPrev: Option<string>)
    ensures var line := Fields(e, hash, hashPrev);
            && Lookup(line, "tool") == OptText(e.tool)
            && Lookup(line, "args_hash") == OptText(e.argsHash)
            && Lookup(line, "args_redacted") == e.argsRedacted
            && Lookup(line, "decision") == OptText(e.decision)
            && Lookup(line, "rule_id") == OptText(e.ruleId)
            && Lookup(line, "reason") == OptText(e.reason)
            && Lookup(line, "agent_name") == OptText(e.agentName)
            && Lookup(line, "agent_role") == OptText(e.agentRole)
            && Lookup(line, "model") == OptText(e.model)
            && Lookup(line, "input_tokens") == OptNat(e.inputTokens)
            && Lookup(line, "output_tokens") == OptNat(e.outputTokens)
            && Lookup(line, "estimated_cost_usd") == OptFloat(e.estimatedCostUsd)
            && Lookup(line, "environment") == OptText(e.environment)
            && Lookup(line, "run_status") == OptText(e.runStatus)
            && Lookup(line, "dimension") == OptText(e.dimension)
            && Lookup(line, "loop_rule") == OptText(e.loopRule)
            && Lookup(line, "loop_action") == OptText(e.loopAction)
            && Lookup(line, "cooldown_ms") == OptNat(e.cooldownMs)
            && Lookup(line, "budget") == e.budget
            && Lookup(line, "latency_ms") == OptFloat(e.latencyMs)
            && Lookup(line, "policy_pack_id") == OptText(e.policyPackId)
            && Lookup(line, "call_seq_fingerprint") == OptText(e.callSeqFingerprint)
            && Lookup(line, "inter_call_ms") == OptNat(e.interCallMs)
            && Lookup(line, "token_rate_delta") == OptFloat(e.tokenRateDelta)
            && Lookup(line, "param_shape_hash") == OptText(e.paramShapeHash)
  {
    hide OptionalFields, Fields, Lookup, OptText, OptNat, OptFloat;
    ReadBack1(e, hash, hashPrev);
    ReadBack2(e, hash, hashPrev);
    ReadBack3(e, hash, hashPrev);
    ReadBack4(e, hash, hashPrev);
    ReadBack5(e, hash, hashPrev);
    ReadBack6(e, hash, hashPrev);
    ReadBack7(e, hash, hashPrev);
    ReadBack8(e, hash, hashPrev);
    ReadBack9(e, hash, hashPrev);
  }

  /** The names in front of the optional fields have no place among them. */
  lemma OtherNames()
    ensures Place(Code("schema_version")) == -1 && Place(Code("event_type")) == -1 && Place(Code("run_id")) == -1
    ensures Place(Code("seq")) == -1 && Place(Code("hash")) == -1 && Place(Code("hash_prev")) == -1 && Place(Code("ts")) == -1
  {
  }

  lemma FrontKeys(e: Event, hash: Option<string>, hashPrev: Option<string>, i: nat)
    requires var front := Head(e) + Optional("hash", hash) + Optional("hash_prev", hashPrev) + [Member("ts", Str(e.ts))]; i < |front|
    ensures var front := Head(e) + Optional("hash", hash) + Optional("hash_prev", hashPrev) + [Member("ts", Str(e.ts))];
            front[i].key in ["schema_version", "event_type", "run_id", "seq", "hash", "hash_prev", "ts"]
  {
  }

  // ---------------------------------------------------------------------
  // Different events have different payloads
  // ---------------------------------------------------------------------

  lemma Values1(e: Event, f: Event)
    requires OptionalFields(e) == OptionalFields(f)
    ensures e.tool == f.tool && e.argsHash == f.argsHash && e.argsRedacted == f.argsRedacted
  {
    hide Number;
    assert OptionalFields(e)[0].value == OptionalFields(f)[0].value;
    assert OptionalFields(e)[1].value == OptionalFields(f)[1].value;
    assert OptionalFields(e)[2].value == OptionalFields(f)[2].value;
  }

  lemma Values2(e: Event, f: Event)
    requires OptionalFields(e) == OptionalFields(f)
    ensures e.decision == f.decision && e.ruleId == f.ruleId && e.reason == f.reason
  {
    hide Number;
    assert OptionalFields(e)[3].value == OptionalFields(f)[3].value;
    assert OptionalFields(e)[4].value == OptionalFields(f)[4].value;
    assert OptionalFields(e)[5].value == OptionalFields(f)[5].value;
  }

  lemma Values3(e: Event, f: Event)
    requires OptionalFields(e) == OptionalFields(f)
    ensures e.agentName == f.agentName && e.agentRole == f.agentRole && e.model == f.model
  {
    hide Number;
    assert OptionalFields(e)[6].value == OptionalFields(f)[6].value;
    assert OptionalFields(e)[7].value == OptionalFields(f)[7].value;
    assert OptionalFields(e)[8].value == OptionalFields(f)[8].value;
  }

  lemma Values4(e: Event, f: Event)
    requires OptionalFields(e) == OptionalFields(f)
    ensures e.inputTokens == f.inputTokens && e.outputTokens == f.outputTokens && e.estimatedCostUsd == f.estimatedCostUsd
  {
    hide Number;
    assert OptionalFields(e)[9].value == OptionalFields(f)[9].value;
    assert OptionalFields(e)[10].value == OptionalFields(f)[10].value;
    assert OptionalFields(e)[11].value == OptionalFields(f)[11].value;
    SameNumber(e.inputTokens, f.inputTokens);
    SameNumber(e.outputTokens, f.outputTokens);
  }

  lemma Values5(e: Event, f: Event)
    requires OptionalFields(e) == OptionalFields(f)
    ensures e.environment == f.environment && e.runStatus == f.runStatus && e.dimension == f.dimension
  {
    hide Number;
    assert OptionalFields(e)[12].value == OptionalFields(f)[12].value;
    assert OptionalFields(e)[13].value == OptionalFields(f)[13].value;
    assert OptionalFields(e)[14].value == OptionalFields(f)[14].value;
  }

  lemma Values6(e: Event, f: Event)
    requires OptionalFields(e) == OptionalFields(f)
    ensures e.loopRule == f.loopRule && e.loopAction == f.loopAction && e.cooldownMs == f.cooldownMs
  {
    hide Number;
    assert OptionalFields(e)[15].value == OptionalFields(f)[15].value;
    assert OptionalFields(e)[16].value == OptionalFields(f)[16].value;
    assert OptionalFields(e)[17].value == OptionalFields(f)[17].value;
    SameNumber(e.cooldownMs, f.cooldownMs);
  }

  lemma Values7(e: Event, f: Event)
    requires OptionalFields(e) == OptionalFields(f)
    ensures e.budget == f.budget && e.latencyMs == f.latencyMs && e.policyPackId == f.policyPackId
  {
    hide Number;
    assert OptionalFields(e)[18].value == OptionalFields(f)[18].value;
    assert OptionalFields(e)[19].value == OptionalFields(f)[19].value;
    assert OptionalFields(e)[20].value == OptionalFields(f)[20].value;
  }

  lemma Values8(e: Event, f: Event)
    requires OptionalFields(e) == OptionalFields(f)
    ensures e.callSeqFingerprint == f.callSeqFingerprint && e.interCallMs == f.interCallMs && e.tokenRateDelta == f.tokenRateDelta
  {
    hide Number;
    assert OptionalFields(e)[21].value == OptionalFields(f)[21].value;
    assert OptionalFields(e)[22].value == OptionalFields(f)[22].value;
    assert OptionalFields(e)[23].value == OptionalFields(f)[23].value;
    SameNumber(e.interCallMs, f.interCallMs);
  }

  lemma Values9(e: Event, f: Event)
    requires OptionalFields(e) == OptionalFields(f)
    ensures e.paramShapeHash == f.paramShapeHash
  {
    hide Number;
    assert OptionalFields(e)[24].value == OptionalFields(f)[24].value;
  }

  lemma SameNumber(a: Option<nat>, b: Option<nat>)
    ensures OptNat(a) == OptNat(b) ==> a == b
  {
    if a.Some? && b.Some? && OptNat(a) == OptNat(b) {
      Decimal.IntTextInjective(a.value, b.value);
    }
  }

  lemma SameFields(e: Event, f: Event)
    requires Fields(e, None, None) == Fields(f, None, None)
    ensures OptionalFields(e) == OptionalFields(f)
  {
    hide OptionalFields, Fields, Lookup;
    FieldCount(e);
    FieldCount(f);
    forall k | 0 <= k < 25
      ensures OptionalFields(e)[k] == OptionalFields(f)[k]
    {
      SameNames(e, f, k);
      OptionalReadBack(e, None, None, k);
      OptionalReadBack(f, None, None, k);
    }
  }

  lemma SameHead(e: Event, f: Event)
    requires Fields(e, None, None) == Fields(f, None, None)
    ensures e.schemaVersion == f.schemaVersion && e.eventType == f.eventType && e.runId == f.runId && e.seqNo == f.seqNo && e.ts == f.ts
  {
    hide OptionalFields, Present;
    var a, b := Fields(e, None, None), Fields(f, None, None);
    assert a[..5] == Head(e) + [Member("ts", Str(e.ts))] && b[..5] == Head(f) + [Member("ts", Str(f.ts))];
    assert a[0] == b[0] && a[1] == b[1] && a[2] == b[2] && a[3] == b[3] && a[4] == b[4];
    Decimal.IntTextInjective(e.schemaVersion, f.schemaVersion);
    Decimal.IntTextInjective(e.seqNo, f.seqNo);
  }

  /** The payload that is hashed determines the event: no field can change without changing it. */
  lemma PayloadIsInjective(e: Event, f: Event)
    requires PrintableEvent(e) && PrintableEvent(f) && Payload(e) == Payload(f)
    ensures e == f
  {
    PayloadFields(e, f);
    hide Fields, OptionalFields, PrintableEvent, Payload;
    SameFields(e, f);
    SameHead(e, f);
    Values1(e, f);
    Values2(e, f);
    Values3(e, f);
    Values4(e, f);
    Values5(e, f);
    Values6(e, f);
    Values7(e, f);
    Values8(e, f);
    Values9(e, f);
  }

  lemma PayloadFields(e: Event, f: Event)
    requires PrintableEvent(e) && PrintableEvent(f) && Payload(e) == Payload(f)
    ensures Fields(e, None, None) == Fields(f, None, None)
  {
    hide Head, Tail, Text, OptionalFields, Present;
    EventUnhashed(e);
    EventUnhashed(f);
    TextIsInjective(Obj(Fields(e, None, None)), Obj(Fields(f, None, None)));
  }
}
