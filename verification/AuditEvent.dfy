/**
 One line of the audit log: how an event is printed with and without its hash fields, and why the
 verifier's text-level stripping of those fields recovers the hashed payload exactly.
 */
module AuditEvent {
  import opened Wrappers
  import opened Json
  import opened JsonText
  import Decimal

  /** The event structure, without the two fields the writer fills in. Floats are given by their literal. */
  datatype Event = Event(
    schemaVersion: nat,
    eventType: string,
    runId: string,
    seqNo: nat,
    ts: string,
    tool: Option<string>,
    argsHash: Option<string>,
    argsRedacted: Option<Json>,
    decision: Option<string>,
    ruleId: Option<string>,
    reason: Option<string>,
    agentName: Option<string>,
    agentRole: Option<string>,
    model: Option<string>,
    inputTokens: Option<nat>,
    outputTokens: Option<nat>,
    estimatedCostUsd: Option<string>,
    environment: Option<string>,
    runStatus: Option<string>,
    dimension: Option<string>,
    loopRule: Option<string>,
    loopAction: Option<string>,
    cooldownMs: Option<nat>,
    budget: Option<Json>,
    latencyMs: Option<string>,
    policyPackId: Option<string>,
    callSeqFingerprint: Option<string>,
    interCallMs: Option<nat>,
    tokenRateDelta: Option<string>,
    paramShapeHash: Option<string>)

  function Number(n: nat): Json {
    Num(Decimal.IntText(n))
  }

  function OptText(o: Option<string>): Option<Json> {
    if o.Some? then Some(Str(o.value)) else None
  }

  function OptNat(o: Option<nat>): Option<Json> {
    if o.Some? then Some(Number(o.value)) else None
  }

  function OptFloat(o: Option<string>): Option<Json> {
    if o.Some? then Some(Num(o.value)) else None
  }

  datatype Field = Field(name: string, value: Option<Json>)

  /** The optional fields in declaration order; absent ones are skipped when printing. */
  function OptionalFields(e: Event): seq<Field> {
    [ Field("tool", OptText(e.tool)),
      Field("args_hash", OptText(e.argsHash)),
      Field("args_redacted", e.argsRedacted),
      Field("decision", OptText(e.decision)),
      Field("rule_id", OptText(e.ruleId)),
      Field("reason", OptText(e.reason)),
      Field("agent_name", OptText(e.agentName)),
      Field("agent_role", OptText(e.agentRole)),
      Field("model", OptText(e.model)),
      Field("input_tokens", OptNat(e.inputTokens)),
      Field("output_tokens", OptNat(e.outputTokens)),
      Field("estimated_cost_usd", OptFloat(e.estimatedCostUsd)),
      Field("environment", OptText(e.environment)),
      Field("run_status", OptText(e.runStatus)),
      Field("dimension", OptText(e.dimension)),
      Field("loop_rule", OptText(e.loopRule)),
      Field("loop_action", OptText(e.loopAction)),
      Field("cooldown_ms", OptNat(e.cooldownMs)),
      Field("budget", e.budget),
      Field("latency_ms", OptFloat(e.latencyMs)),
      Field("policy_pack_id", OptText(e.policyPackId)),
      Field("call_seq_fingerprint", OptText(e.callSeqFingerprint)),
      Field("inter_call_ms", OptNat(e.interCallMs)),
      Field("token_rate_delta", OptFloat(e.tokenRateDelta)),
      Field("param_shape_hash", OptText(e.paramShapeHash)) ]
  }

  function Present(fields: seq<Field>): seq<Member> {
    if fields == [] then []
    else (if fields[0].value.Some? then [Member(fields[0].name, fields[0].value.value)] else []) + Present(fields[1..])
  }

  function Head(e: Event): seq<Member> {
    [ Member("schema_version", Number(e.schemaVersion)),
      Member("event_type", Str(e.eventType)),
      Member("run_id", Str(e.runId)),
      Member("seq", Number(e.seqNo)) ]
  }

  function Tail(e: Event): seq<Member> {
    [Member("ts", Str(e.ts))] + Present(OptionalFields(e))
  }

  function Optional(name: string, value: Option<string>): seq<Member> {
    if value.Some? then [Member(name, Str(value.value))] else []
  }

  function Fields(e: Event, hash: Option<string>, hashPrev: Option<string>): seq<Member> {
    Head(e) + Optional("hash", hash) + Optional("hash_prev", hashPrev) + Tail(e)
  }

  /** The printed line; with both hashes absent it is the payload that gets hashed. */
  function Line(e: Event, hash: Option<string>, hashPrev: Option<string>): string {
    Text(Obj(Fields(e, hash, hashPrev)))
  }

  function Payload(e: Event): string {
    Line(e, None, None)
  }

  ghost predicate PrintableEvent(e: Event) {
    var fields := OptionalFields(e);
    forall i :: 0 <= i < |fields| ==> fields[i].value.Some? ==> Printable(fields[i].value.value)
  }

  predicate HexChar(c: char) {
    '0' <= c <= '9' || 'a' <= c <= 'f'
  }

  predicate Hex(s: string) {
    forall i :: 0 <= i < |s| ==> HexChar(s[i])
  }

  // ---------------------------------------------------------------------
  // Stripping
  // ---------------------------------------------------------------------

  /** Remove the first occurrence of `needle`, if there is one. */
  function RemoveFirst(t: string, needle: string): string {
    if needle <= t then t[|needle|..]
    else if t == "" then ""
    else [t[0]] + RemoveFirst(t[1..], needle)
  }

  function HashNeedle(h: string): string {
    ",\"hash\":\"" + h + "\""
  }

  function HashPrevNeedle(h: string): string {
    ",\"hash_prev\":\"" + h + "\""
  }

  /** The verifier's reconstruction of the payload from the raw line and the two parsed values. */
  function StripHashFields(line: string, hash: Option<string>, hashPrev: Option<string>): string {
    var once := if hashPrev.Some? then RemoveFirst(line, HashPrevNeedle(hashPrev.value)) else line;
    if hash.Some? then RemoveFirst(once, HashNeedle(hash.value)) else once
  }

  lemma {:induction false} RemoveFirstAt(pre: string, needle: string, post: string)
    requires needle != ""
    requires forall i :: 0 <= i < |pre| ==> !(needle <= (pre + needle + post)[i..])
    ensures RemoveFirst(pre + needle + post, needle) == pre + post
    decreases |pre|
  {
    var t := pre + needle + post;
    if pre == "" {
      assert t == needle + post;
      assert t[|needle|..] == post;
    } else {
      assert t[0..] == t;
      var rest := pre[1..] + needle + post;
      assert t[1..] == rest;
      forall i | 0 <= i < |pre[1..]|
        ensures !(needle <= rest[i..])
      {
        assert rest[i..] == t[i + 1..];
      }
      RemoveFirstAt(pre[1..], needle, post);
      assert pre + post == [pre[0]] + (pre[1..] + post);
    }
  }

  // Both needles start with a comma, a quote and an h. Where can that happen?

  predicate Hit(t: string, i: nat) {
    i + 2 < |t| && t[i] == ',' && t[i + 1] == '\"' && t[i + 2] == 'h'
  }

  /** No hit starts inside `a` when `post` follows it. */
  ghost predicate NoHits(a: string, post: string) {
    forall i: nat :: i < |a| ==> !Hit(a + post, i)
  }

  lemma NoHitsConcat(a: string, b: string, post: string)
    requires NoHits(a, b + post) && NoHits(b, post)
    ensures NoHits(a + b, post)
  {
    var t := (a + b) + post;
    assert t == a + (b + post);
    forall i: nat | i < |a + b|
      ensures !Hit(t, i)
    {
      if i >= |a| {
        assert !Hit(b + post, i - |a|);
        assert forall k :: |a| <= k < |t| ==> t[k] == (b + post)[k - |a|];
      }
    }
  }

  lemma NoCommaNoHits(a: string, post: string)
    requires ',' !in a
    ensures NoHits(a, post)
  {
    forall i: nat | i < |a|
      ensures !Hit(a + post, i)
    {
      assert (a + post)[i] == a[i];
    }
  }

  /** Inside an escaped string a quote follows a backslash, never a comma; after its end comes a comma. */
  lemma EscapeNoHits(s: string, post: string)
    requires |post| > 1 && post[0] == '\"' && post[1] == ','
    ensures NoHits(Escape(s), post)
  {
    var e := Escape(s);
    var t := e + post;
    forall i: nat | i < |e|
      ensures !Hit(t, i)
    {
      if i + 1 < |e| {
        EscapedChars(s, i + 1);
        assert t[i] == e[i] && t[i + 1] == e[i + 1];
      } else {
        assert t[i + 2] == post[1];
      }
    }
  }

  lemma SeparatorNoHits(a: string, post: string)
    requires |a| >= 3 && a[0] == ',' && a[2] != 'h' && ',' !in a[1..]
    ensures NoHits(a, post)
  {
    forall i: nat | i < |a|
      ensures !Hit(a + post, i)
    {
      if i == 0 {
        assert (a + post)[2] == a[2];
      } else {
        assert (a + post)[i] == a[1..][i - 1];
      }
    }
  }

  // ---------------------------------------------------------------------
  // The shape of a line
  // ---------------------------------------------------------------------

  predicate Plain(s: string) {
    forall i :: 0 <= i < |s| ==> s[i] as int >= 0x20 && s[i] != '\"' && s[i] != '\\'
  }

  lemma {:induction false} PlainEscape(s: string)
    requires Plain(s)
    ensures Escape(s) == s
  {
    if s != "" {
      PlainEscape(s[1..]);
      assert EscapeChar(s[0]) == [s[0]];
      assert s == [s[0]] + s[1..];
    }
  }

  lemma {:induction false} MembersAppend(a: seq<Member>, b: seq<Member>)
    requires a != [] && b != []
    ensures MembersText(a + b) == MembersText(a) + "," + MembersText(b)
  {
    hide MemberText;
    assert (a + b)[0] == a[0] && (a + b)[1..] == a[1..] + b;
    if |a| > 1 {
      MembersAppend(a[1..], b);
    } else {
      assert a[1..] + b == b;
    }
  }

  lemma MembersOne(m: Member)
    ensures MembersText([m]) == MemberText(m)
  {
    assert MemberText(m) + "" == MemberText(m);
  }

  lemma TextMember(name: string, value: string)
    requires Plain(name)
    ensures MemberText(Member(name, Str(value))) == "\"" + name + "\":\"" + Escape(value) + "\""
  {
    hide Escape;
    PlainEscape(name);
  }

  lemma NumberMember(name: string, n: nat)
    requires Plain(name)
    ensures MemberText(Member(name, Number(n))) == "\"" + name + "\":" + Decimal.IntText(n)
  {
    hide Escape;
    PlainEscape(name);
  }

  function Opening(e: Event): string {
    "{\"schema_version\":" + Decimal.IntText(e.schemaVersion)
  }

  function Closing(e: Event): string {
    ",\"seq\":" + Decimal.IntText(e.seqNo)
  }

  const EVENT_TYPE := ",\"event_type\":\""
  const RUN_ID := ",\"run_id\":\""

  /** Everything before the hash fields, piece by piece. */
  function Before(e: Event): string {
    Opening(e) + (EVENT_TYPE + (Escape(e.eventType) + ("\"" + (RUN_ID + (Escape(e.runId) + ("\"" + Closing(e)))))))
  }

  lemma HeadText(e: Event)
    ensures "{" + MembersText(Head(e)) == Before(e)
  {
    hide Escape, Decimal.IntText, MembersText, MemberText;
    var h := Head(e);
    NumberMember("schema_version", e.schemaVersion);
    TextMember("event_type", e.eventType);
    TextMember("run_id", e.runId);
    NumberMember("seq", e.seqNo);
    assert h == [h[0]] + ([h[1]] + ([h[2]] + [h[3]]));
    MembersAppend([h[0]], [h[1]] + ([h[2]] + [h[3]]));
    MembersAppend([h[1]], [h[2]] + [h[3]]);
    MembersAppend([h[2]], [h[3]]);
    MembersOne(h[0]);
    MembersOne(h[1]);
    MembersOne(h[2]);
    MembersOne(h[3]);
    Associate(e, MembersText([h[0]]), MembersText([h[1]]), MembersText([h[2]]), MembersText([h[3]]));
  }

  /** Joining a constant prefix across concatenations. */
  lemma JoinPrefix(p: string, q: string, joined: string, x: string, y: string)
    requires p + q == joined
    ensures p + (q + x + y) == joined + (x + y)
    ensures p + (q + x) == joined + x
  {
    assert p + (q + x + y) == (p + q) + (x + y);
    assert p + (q + x) == (p + q) + x;
  }

  lemma KeyPrefixes()
    ensures "{" + ("\"" + "schema_version" + "\":") == "{\"schema_version\":"
    ensures "," + ("\"" + "event_type" + "\":\"") == EVENT_TYPE
    ensures "," + ("\"" + "run_id" + "\":\"") == RUN_ID
    ensures "," + ("\"" + "seq" + "\":") == ",\"seq\":"
  {
  }

  lemma NeedlePrefixes()
    ensures "," + ("\"" + "hash" + "\":\"") == ",\"hash\":\""
    ensures "," + ("\"" + "hash_prev" + "\":\"") == ",\"hash_prev\":\""
  {
  }

  lemma Regroup(a: string, b: string, c: string, d: string,
                o: string, et: string, e1: string, ri: string, e2: string, cl: string)
    requires "{" + a == o && "," + b == et + (e1 + "\"") && "," + c == ri + (e2 + "\"") && "," + d == cl
    ensures "{" + (a + "," + (b + "," + (c + "," + d)))
         == o + (et + (e1 + ("\"" + (ri + (e2 + ("\"" + cl))))))
  {
    var cd := "," + (c + "," + d);
    assert cd == ("," + c) + ("," + d);
    assert cd == ri + (e2 + ("\"" + cl));
    var bcd := "," + (b + "," + (c + "," + d));
    assert bcd == ("," + b) + cd;
    assert bcd == et + (e1 + ("\"" + cd));
    assert "{" + (a + "," + (b + "," + (c + "," + d))) == ("{" + a) + bcd;
  }

  lemma Associate(e: Event, a: string, b: string, c: string, d: string)
    requires a == "\"" + "schema_version" + "\":" + Decimal.IntText(e.schemaVersion)
    requires b == "\"" + "event_type" + "\":\"" + Escape(e.eventType) + "\""
    requires c == "\"" + "run_id" + "\":\"" + Escape(e.runId) + "\""
    requires d == "\"" + "seq" + "\":" + Decimal.IntText(e.seqNo)
    ensures "{" + (a + "," + (b + "," + (c + "," + d))) == Before(e)
  {
    hide Escape, Decimal.IntText;
    KeyPrefixes();
    JoinPrefix("{", "\"" + "schema_version" + "\":", "{\"schema_version\":", Decimal.IntText(e.schemaVersion), "");
    JoinPrefix(",", "\"" + "event_type" + "\":\"", EVENT_TYPE, Escape(e.eventType), "\"");
    JoinPrefix(",", "\"" + "run_id" + "\":\"", RUN_ID, Escape(e.runId), "\"");
    JoinPrefix(",", "\"" + "seq" + "\":", ",\"seq\":", Decimal.IntText(e.seqNo), "");
    Regroup(a, b, c, d, Opening(e), EVENT_TYPE, Escape(e.eventType), RUN_ID, Escape(e.runId), Closing(e));
  }

  lemma DigitsNoComma(n: nat)
    ensures ',' !in Decimal.IntText(n)
  {
  }

  /** Nothing before the hash fields can be mistaken for one of them, whatever the strings contain. */
  lemma BeforeNoHits(e: Event, post: string)
    ensures NoHits(Before(e), post)
  {
    hide Escape, NoHits, Decimal.IntText;
    DigitsNoComma(e.schemaVersion);
    DigitsNoComma(e.seqNo);
    var r8 := Closing(e);
    var r7 := "\"" + r8;
    var r6 := Escape(e.runId) + r7;
    var r5 := RUN_ID + r6;
    var r4 := "\"" + r5;
    var r3 := Escape(e.eventType) + r4;
    var r2 := EVENT_TYPE + r3;
    assert r8[2] == 's' && ',' !in r8[1..];
    SeparatorNoHits(r8, post);
    NoCommaNoHits("\"", r8 + post);
    NoHitsConcat("\"", r8, post);
    EscapeNoHits(e.runId, r7 + post);
    NoHitsConcat(Escape(e.runId), r7, post);
    SeparatorNoHits(RUN_ID, r6 + post);
    NoHitsConcat(RUN_ID, r6, post);
    NoCommaNoHits("\"", r5 + post);
    NoHitsConcat("\"", r5, post);
    EscapeNoHits(e.eventType, r4 + post);
    NoHitsConcat(Escape(e.eventType), r4, post);
    SeparatorNoHits(EVENT_TYPE, r3 + post);
    NoHitsConcat(EVENT_TYPE, r3, post);
    NoCommaNoHits(Opening(e), r2 + post);
    NoHitsConcat(Opening(e), r2, post);
  }

  function After(e: Event): string {
    "," + MembersText(Tail(e)) + "}"
  }

  lemma NeedleText(h: string)
    requires Hex(h)
    ensures "," + MembersText([Member("hash", Str(h))]) == HashNeedle(h)
    ensures "," + MembersText([Member("hash_prev", Str(h))]) == HashPrevNeedle(h)
  {
    hide Escape, MembersText, MemberText;
    PlainEscape(h);
    TextMember("hash", h);
    TextMember("hash_prev", h);
    MembersOne(Member("hash", Str(h)));
    MembersOne(Member("hash_prev", Str(h)));
    NeedlePrefixes();
    JoinPrefix(",", "\"" + "hash" + "\":\"", ",\"hash\":\"", h, "\"");
    JoinPrefix(",", "\"" + "hash_prev" + "\":\"", ",\"hash_prev\":\"", h, "\"");
    AssociateNeedle(",\"hash\":\"", h);
    AssociateNeedle(",\"hash_prev\":\"", h);
  }

  lemma AssociateNeedle(prefix: string, h: string)
    ensures prefix + (h + "\"") == prefix + h + "\""
  {
  }

  /** Printing optional members in front of a nonempty rest. */
  lemma OptionalShape(ms: seq<Member>, rest: seq<Member>, needle: string)
    requires rest != []
    requires if ms == [] then needle == "" else "," + MembersText(ms) == needle
    ensures "," + MembersText(ms + rest) == needle + ("," + MembersText(rest))
  {
    hide MembersText;
    if ms == [] {
      assert ms + rest == rest;
    } else {
      MembersAppend(ms, rest);
      assert "," + (MembersText(ms) + "," + MembersText(rest)) == ("," + MembersText(ms)) + ("," + MembersText(rest));
    }
  }

  /** The printed line, with the hash fields as the verifier's needles. */
  lemma LineShape(e: Event, hash: Option<string>, hashPrev: Option<string>)
    requires hash.Some? ==> Hex(hash.value)
    requires hashPrev.Some? ==> Hex(hashPrev.value)
    ensures Line(e, hash, hashPrev)
         == Before(e) + (if hash.Some? then HashNeedle(hash.value) else "")
            + (if hashPrev.Some? then HashPrevNeedle(hashPrev.value) else "") + After(e)
  {
    hide MembersText, Head, Tail, Before, HashNeedle, HashPrevNeedle;
    var h, p, t := Optional("hash", hash), Optional("hash_prev", hashPrev), Tail(e);
    var x := if hash.Some? then HashNeedle(hash.value) else "";
    var y := if hashPrev.Some? then HashPrevNeedle(hashPrev.value) else "";
    HeadText(e);
    TailNonEmpty(e);
    if hash.Some? {
      NeedleText(hash.value);
    }
    if hashPrev.Some? {
      NeedleText(hashPrev.value);
    }
    OptionalShape(h, p + t, x);
    OptionalShape(p, t, y);
    assert Fields(e, hash, hashPrev) == Head(e) + (h + (p + t));
    MembersAppend(Head(e), h + (p + t));
    LineAssociate(MembersText(Head(e)), MembersText(h + (p + t)), Before(e), x, y, MembersText(t));
  }

  lemma LineAssociate(head: string, rest: string, before: string, x: string, y: string, tail: string)
    requires "{" + head == before && "," + rest == x + (y + ("," + tail))
    ensures "{" + (head + "," + rest) + "}" == before + x + y + ("," + tail + "}")
  {
    assert "{" + (head + "," + rest) + "}" == ("{" + head) + ("," + rest) + "}";
  }

  lemma TailNonEmpty(e: Event)
    ensures Tail(e) != [] && Head(e) != []
  {
  }

  // ---------------------------------------------------------------------
  // Stripping recovers the payload
  // ---------------------------------------------------------------------

  lemma OccurrenceIsHit(t: string, needle: string, i: nat)
    requires i <= |t| && ",\"h" <= needle && needle <= t[i..]
    ensures Hit(t, i)
  {
    assert needle[0] == ',' && needle[1] == '\"' && needle[2] == 'h';
    assert t[i..][0] == t[i] && t[i..][1] == t[i + 1] && t[i..][2] == t[i + 2];
  }

  lemma NoHitsNoOccurrence(a: string, post: string, needle: string)
    requires NoHits(a, post) && ",\"h" <= needle
    ensures forall i :: 0 <= i < |a| ==> !(needle <= (a + post)[i..])
  {
    forall i | 0 <= i < |a|
      ensures !(needle <= (a + post)[i..])
    {
      if needle <= (a + post)[i..] {
        OccurrenceIsHit(a + post, needle, i);
      }
    }
  }

  lemma StripHash(e: Event, h: string)
    ensures RemoveFirst(Before(e) + HashNeedle(h) + After(e), HashNeedle(h)) == Before(e) + After(e)
  {
    hide Before, After, NoHits, RemoveFirst;
    var n := HashNeedle(h);
    BeforeNoHits(e, n + After(e));
    assert ",\"h" <= n;
    NoHitsNoOccurrence(Before(e), n + After(e), n);
    assert Before(e) + (n + After(e)) == Before(e) + n + After(e);
    RemoveFirstAt(Before(e), n, After(e));
  }

  /** The `hash` field itself is not an occurrence of the `hash_prev` needle. */
  lemma HashIsNotHashPrev(h: string, p: string, rest: string, i: nat)
    requires Hex(h) && i < |HashNeedle(h)|
    ensures !(HashPrevNeedle(p) <= (HashNeedle(h) + rest)[i..])
  {
    var t := (HashNeedle(h) + rest)[i..];
    var n := HashPrevNeedle(p);
    assert n[0] == ',' && n[6] == '_';
    assert t[0] == HashNeedle(h)[i];
    if i == 0 {
      assert t[6] == HashNeedle(h)[6] == '\"';
    } else {
      assert HashNeedle(h)[i] != ',';
    }
  }

  lemma StripHashPrev(e: Event, h: string, p: string)
    requires Hex(h)
    ensures RemoveFirst(Before(e) + HashNeedle(h) + HashPrevNeedle(p) + After(e), HashPrevNeedle(p))
         == Before(e) + HashNeedle(h) + After(e)
  {
    hide Before, After, NoHits, RemoveFirst, HashNeedle, HashPrevNeedle;
    var pre, n := Before(e) + HashNeedle(h), HashPrevNeedle(p);
    var t := pre + n + After(e);
    var later := HashNeedle(h) + (n + After(e));
    assert t == Before(e) + later;
    BeforeNoHits(e, later);
    NeedleStarts(p);
    NoHitsNoOccurrence(Before(e), later, n);
    forall i | 0 <= i < |pre|
      ensures !(n <= t[i..])
    {
      if i >= |Before(e)| {
        HashIsNotHashPrev(h, p, n + After(e), i - |Before(e)|);
        assert t[i..] == later[i - |Before(e)|..];
      }
    }
    RemoveFirstAt(pre, n, After(e));
  }

  lemma NeedleStarts(p: string)
    ensures ",\"h" <= HashPrevNeedle(p) && HashPrevNeedle(p) != ""
  {
  }

  /**
   Whatever the event's strings contain, removing the first textual occurrences of the two hash
   fields gives back the exact payload that was hashed.
   */
  lemma StripRecoversPayload(e: Event, hash: string, hashPrev: Option<string>)
    requires Hex(hash) && (hashPrev.Some? ==> Hex(hashPrev.value))
    ensures StripHashFields(Line(e, Some(hash), hashPrev), Some(hash), hashPrev) == Payload(e)
  {
    hide Before, After, RemoveFirst, HashNeedle, HashPrevNeedle, Line;
    LineShape(e, Some(hash), hashPrev);
    LineShape(e, None, None);
    assert Before(e) + "" + "" + After(e) == Before(e) + After(e);
    assert Before(e) + HashNeedle(hash) + "" + After(e) == Before(e) + HashNeedle(hash) + After(e);
    if hashPrev.Some? {
      StripHashPrev(e, hash, hashPrev.value);
    }
    StripHash(e, hash);
  }
}
