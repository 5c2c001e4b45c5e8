/**
 The request protocol between one Guard and the engine: lazy connection, one reconnect and resend,
 FIFO responses per connection, and the seq/run_id echo check.

 `Network` is everything outside the Guard. It serves requests, answers other clients, loses
 responses and drops connections at times chosen nondeterministically, so every contract below
 speaks about every pattern of failures.
 */
module Guard {
  import opened Wrappers
  import opened Policy
  import opened Engine
  import opened EngineRuns
  import Json
  import Budget
  import LoopDetector

  /** A response on its way to the Guard, with the `enforce` call that produced it, if one did. */
  datatype Delivery = Delivery(response: Response, source: Option<nat>)

  /** A line of the request stream: a whole request, or one glued to the remains of a failed send. */
  datatype Line = Whole(request: Request) | Malformed

  /**
   One connection: lines not yet served, responses not yet read (in flight or in the client's
   buffer), whether the server still reads it, and whether an unfinished line is stuck at its end.
   */
  datatype Conn = Conn(lines: seq<Line>, responses: seq<Delivery>, serving: bool, stuck: bool)

  const IPC_RULE := "__builtin_ipc_parse_error"
  const VERSION_RULE := "__builtin_schema_version_unsupported"

  function ProtocolKill(runId: string, seqNo: nat, rule: string): Response {
    Response(runId, seqNo, Kill, Some(rule), RuleReason(None), None)
  }

  /** Call number `i` of the trace is answered with exactly this response. */
  ghost predicate AnsweredWith(policy: CompiledPolicy, inputs: seq<Input>, i: nat, response: Response) {
    i < |inputs| && Answer(policy, inputs[..i + 1], true) == response
  }

  lemma AnswersPersist(policy: CompiledPolicy, inputs: seq<Input>, more: seq<Input>, i: nat, response: Response)
    requires inputs <= more && AnsweredWith(policy, inputs, i, response)
    ensures AnsweredWith(policy, more, i, response)
  {
    assert more[..i + 1] == inputs[..i + 1];
  }

  lemma AnswerEchoes(policy: CompiledPolicy, inputs: seq<Input>)
    requires inputs != []
    ensures Answer(policy, inputs, true).runId == Last(inputs).req.runId
    ensures Answer(policy, inputs, true).seqNo == Last(inputs).req.seqNo
  {
    EvaluateEchoes(policy, After(policy, Front(inputs), true), Last(inputs).req, Last(inputs).now);
    hide Evaluate;
  }

  lemma EvaluateEchoes(policy: CompiledPolicy, s: State, req: Request, now: int)
    ensures var r := Evaluate(policy, s, req, now, true).1; r.runId == req.runId && r.seqNo == req.seqNo
  {
    hide LoopDetector.CheckRun, RuleMatches, Budget.FirstHardCap;
  }

  /** A response on a Guard connection is a protocol kill or the answer to a request the Guard sent. */
  ghost predicate Genuine(policy: CompiledPolicy, inputs: seq<Input>, sent: seq<Request>, d: Delivery) {
    match d.source
    case None => d.response.decision == Kill
    case Some(i) => AnsweredWith(policy, inputs, i, d.response) && inputs[i].req in sent
  }

  lemma GenuinePersists(policy: CompiledPolicy, inputs: seq<Input>, more: seq<Input>,
                        sent: seq<Request>, sentMore: seq<Request>, d: Delivery)
    requires inputs <= more && sent <= sentMore && Genuine(policy, inputs, sent, d)
    ensures Genuine(policy, more, sentMore, d)
  {
    if d.source.Some? {
      AnswersPersist(policy, inputs, more, d.source.value, d.response);
      assert more[d.source.value] == inputs[d.source.value];
      var k :| 0 <= k < |sent| && sent[k] == inputs[d.source.value].req;
      assert sentMore[k] == sent[k];
    }
  }

  ghost predicate ConnGenuine(policy: CompiledPolicy, inputs: seq<Input>, sent: seq<Request>, c: Conn) {
    && (forall k :: 0 <= k < |c.lines| && c.lines[k].Whole? ==> c.lines[k].request in sent)
    && (forall k :: 0 <= k < |c.responses| ==> Genuine(policy, inputs, sent, c.responses[k]))
  }

  lemma ConnPersists(policy: CompiledPolicy, inputs: seq<Input>, more: seq<Input>,
                     sent: seq<Request>, sentMore: seq<Request>, c: Conn)
    requires inputs <= more && sent <= sentMore && ConnGenuine(policy, inputs, sent, c)
    ensures ConnGenuine(policy, more, sentMore, c)
  {
    forall k | 0 <= k < |c.lines| && c.lines[k].Whole?
      ensures c.lines[k].request in sentMore
    {
      var j :| 0 <= j < |sent| && sent[j] == c.lines[k].request;
      assert sentMore[j] == sent[j];
    }
    forall k | 0 <= k < |c.responses|
      ensures Genuine(policy, more, sentMore, c.responses[k])
    {
      GenuinePersists(policy, inputs, more, sent, sentMore, c.responses[k]);
    }
  }

  ghost predicate AllGenuine(policy: CompiledPolicy, inputs: seq<Input>, sent: seq<Request>, conns: seq<Conn>) {
    forall c :: 0 <= c < |conns| ==> ConnGenuine(policy, inputs, sent, conns[c])
  }

  lemma AllPersist(policy: CompiledPolicy, inputs: seq<Input>, more: seq<Input>,
                   sent: seq<Request>, sentMore: seq<Request>, conns: seq<Conn>)
    requires inputs <= more && sent <= sentMore && AllGenuine(policy, inputs, sent, conns)
    ensures AllGenuine(policy, more, sentMore, conns)
  {
    forall c | 0 <= c < |conns|
      ensures ConnGenuine(policy, more, sentMore, conns[c])
    {
      ConnPersists(policy, inputs, more, sent, sentMore, conns[c]);
    }
  }

  class Network {
    const policy: CompiledPolicy
    /** Every `enforce` call so far, from any client, in the order the engine's lock admitted them. */
    var inputs: seq<Input>
    /** The connections the Guard has opened. */
    var conns: seq<Conn>
    /** Every request the Guard has issued, one per check. */
    ghost var sent: seq<Request>

    constructor (policy: CompiledPolicy)
      ensures this.policy == policy && inputs == [] && conns == [] && sent == [] && Valid()
    {
      this.policy := policy;
      inputs, conns, sent := [], [], [];
    }

    ghost predicate Valid()
      reads this
    {
      AllGenuine(policy, inputs, sent, conns)
    }

    /** `enforce` under the engine's lock. */
    method EnforceNext(input: Input) returns (r: Response)
      requires Valid()
      modifies this`inputs
      ensures Valid() && inputs == old(inputs) + [input]
      ensures AnsweredWith(policy, inputs, |old(inputs)|, r)
    {
      inputs := inputs + [input];
      AllPersist(policy, old(inputs), inputs, sent, sent, conns);
      assert inputs[..|inputs|] == inputs;
      r := Answer(policy, inputs, true);
    }

    /** One turn of the server's connection handler; the response may be lost on the way. */
    method Serve(c: nat)
      requires Valid() && c < |conns|
      modifies this`inputs, this`conns
      ensures Valid() && old(inputs) <= inputs && |conns| == |old(conns)|
    {
      hide Answer, UpdateOf;
      var conn := conns[c];
      if !conn.serving || conn.lines == [] {
        return;
      }
      var rest := conn.(lines := conn.lines[1..]);
      assert ConnGenuine(policy, inputs, sent, rest) by {
        assert forall k :: 0 <= k < |rest.lines| ==> rest.lines[k] == conn.lines[k + 1];
      }
      var lost: bool := *;
      if conn.lines[0].Malformed? {
        var kill := Delivery(ProtocolKill("unknown", 0, IPC_RULE), None);
        conns := conns[c := rest.(serving := false, responses := rest.responses + [kill])];
        return;
      }
      var req := conn.lines[0].request;
      assert req in sent;
      if req.schemaVersion != 1 {
        var kill := Delivery(ProtocolKill(req.runId, req.seqNo, VERSION_RULE), None);
        conns := conns[c := rest.(serving := false, responses := rest.responses + [kill])];
      } else {
        var now: int, auditOk: bool, noticeOk: bool := *, *, *;
        var response := EnforceNext(Input(req, now, auditOk, noticeOk));
        ConnPersists(policy, old(inputs), inputs, sent, sent, rest);
        if lost {
          conns := conns[c := rest.(serving := false)];
        } else {
          var d := Delivery(response, Some(|inputs| - 1));
          assert Genuine(policy, inputs, sent, d);
          conns := conns[c := rest.(responses := rest.responses + [d])];
        }
      }
    }

    /** Anything the rest of the world may do while the Guard waits. */
    method Interfere()
      requires Valid()
      modifies this`inputs, this`conns
      ensures Valid() && old(inputs) <= inputs && |conns| == |old(conns)|
    {
      var steps: nat :| true;
      for i := 0 to steps
        invariant Valid() && old(inputs) <= inputs && |conns| == |old(conns)|
      {
        var c: nat :| true;
        if * {
          var input: Input := *;
          var _ := EnforceNext(input);
        } else if c < |conns| {
          if * {
            Serve(c);
          } else {
            conns := conns[c := conns[c].(serving := false)];
          }
        }
      }
    }
  }

  /** The client end of the socket; `sock` is the index of its current connection. */
  class EngineConnection {
    const network: Network
    var sock: Option<nat>

    constructor (network: Network)
      ensures this.network == network && sock == None
    {
      this.network := network;
      sock := None;
    }

    ghost predicate Valid()
      reads this, network
    {
      network.Valid() && (sock.Some? ==> sock.value < |network.conns|)
    }

    method Connect() returns (ok: bool)
      requires Valid()
      modifies this, network`conns
      ensures Valid() && network.inputs == old(network.inputs)
      ensures if ok then sock.Some? else sock == old(sock)
    {
      if * {
        return false;
      }
      sock := Some(|network.conns|);
      network.conns := network.conns + [Conn([], [], true, false)];
      return true;
    }

    method Close()
      requires Valid()
      modifies this
      ensures Valid() && sock == None
    {
      sock := None;
    }

    method Reconnect() returns (ok: bool)
      requires Valid()
      modifies this, network`conns
      ensures Valid() && network.inputs == old(network.inputs)
      ensures ok ==> sock.Some?
    {
      Close();
      ok := Connect();
    }

    /** Connects on demand; a failing send leaves nothing, an unfinished line, or the whole request behind. */
    method SendRequest(req: Request) returns (ok: bool)
      requires Valid() && req in network.sent
      modifies this, network`conns
      ensures Valid() && network.inputs == old(network.inputs)
      ensures ok ==> sock.Some?
    {
      if sock.None? {
        ok := Connect();
        if !ok {
          return false;
        }
      }
      var c := sock.value;
      var conn := network.conns[c];
      if * {
        var line := if conn.stuck then Malformed else Whole(req);
        network.conns := network.conns[c := conn.(lines := conn.lines + [line], stuck := false)];
        ok := *;
      } else {
        var stuck: bool := *;
        network.conns := network.conns[c := conn.(stuck := conn.stuck || stuck)];
        ok := false;
      }
    }

    /** Waits for the next line; it may time out, find the peer gone, or fail to decode the line. */
    method RecvResponse() returns (r: Option<Delivery>)
      requires Valid() && sock.Some?
      modifies this, network`inputs, network`conns
      ensures Valid() && old(network.inputs) <= network.inputs
      ensures r.Some? ==> Genuine(network.policy, network.inputs, network.sent, r.value)
    {
      network.Interfere();
      var c := sock.value;
      var conn := network.conns[c];
      if conn.responses == [] {
        return None;
      }
      if * {
        return None;
      }
      var d := conn.responses[0];
      assert Genuine(network.policy, network.inputs, network.sent, d);
      var rest := conn.(responses := conn.responses[1..]);
      assert ConnGenuine(network.policy, network.inputs, network.sent, rest) by {
        assert forall k :: 0 <= k < |rest.responses| ==> rest.responses[k] == conn.responses[k + 1];
      }
      network.conns := network.conns[c := rest];
      if * {
        return None;
      }
      return Some(d);
    }

    method RequestResponse(req: Request) returns (r: Option<Delivery>)
      requires Valid() && req in network.sent
      modifies this, network`inputs, network`conns
      ensures Valid() && old(network.inputs) <= network.inputs
      ensures r.Some? ==> Genuine(network.policy, network.inputs, network.sent, r.value)
    {
      var ok := SendRequest(req);
      if !ok {
        return None;
      }
      r := RecvResponse();
    }
  }

  datatype Outcome =
    | Allowed | FailedOpen
    | PolicyDenied | CooledDown | RunTerminated | ApprovalRequired | EngineUnavailable

  /** What the Guard says about its agent in every request. */
  datatype Identity = Identity(
    agentRole: Option<string>,
    agentName: Option<string>,
    environment: Option<string>,
    model: Option<string>)

  /** The response names the request it answers. */
  predicate Echoes(response: Response, seqNo: nat, runId: string) {
    response.seqNo == seqNo && response.runId == runId
  }

  /** A call let through on the engine's word: its seq, and the `enforce` call that allowed it. */
  datatype Grant = Grant(seqNo: nat, index: nat)

  /** The grant stands on an Allow that `enforce` gave to that very request. */
  ghost predicate Backed(policy: CompiledPolicy, inputs: seq<Input>, sent: seq<Request>, runId: string, g: Grant) {
    && 1 <= g.seqNo <= |sent|
    && g.index < |inputs|
    && inputs[g.index].req == sent[g.seqNo - 1]
    && inputs[g.index].req.runId == runId
    && Answer(policy, inputs[..g.index + 1], true).decision == Allow
  }

  ghost predicate AllBacked(policy: CompiledPolicy, inputs: seq<Input>, sent: seq<Request>, runId: string, gs: seq<Grant>) {
    && (forall a :: 0 <= a < |gs| ==> Backed(policy, inputs, sent, runId, gs[a]))
    && (forall a, b :: 0 <= a < b < |gs| ==> gs[a].seqNo < gs[b].seqNo)
  }

  lemma BackedPersists(policy: CompiledPolicy, inputs: seq<Input>, more: seq<Input>,
                       sent: seq<Request>, sentMore: seq<Request>, runId: string, gs: seq<Grant>)
    requires inputs <= more && sent <= sentMore && AllBacked(policy, inputs, sent, runId, gs)
    ensures AllBacked(policy, more, sentMore, runId, gs)
  {
    forall a | 0 <= a < |gs|
      ensures Backed(policy, more, sentMore, runId, gs[a])
    {
      var i := gs[a].index;
      assert more[..i + 1] == inputs[..i + 1] && more[i] == inputs[i];
      assert sentMore[gs[a].seqNo - 1] == sent[gs[a].seqNo - 1];
    }
  }

  lemma BackedAppends(policy: CompiledPolicy, inputs: seq<Input>, sent: seq<Request>, runId: string,
                      gs: seq<Grant>, g: Grant)
    requires AllBacked(policy, inputs, sent, runId, gs) && Backed(policy, inputs, sent, runId, g)
    requires forall a :: 0 <= a < |gs| ==> gs[a].seqNo < g.seqNo
    ensures AllBacked(policy, inputs, sent, runId, gs + [g])
  {
    hide Answer;
    forall a | 0 <= a < |gs|
      ensures Backed(policy, inputs, sent, runId, (gs + [g])[a])
    {
      assert (gs + [g])[a] == gs[a];
    }
  }

  // ---------------------------------------------------------------------
  // Counting grants
  // ---------------------------------------------------------------------

  ghost predicate AllowAt(policy: CompiledPolicy, inputs: seq<Input>, runId: string, i: nat) {
    i < |inputs| && RunOf(inputs[i]) == runId && Answer(policy, inputs[..i + 1], true).decision == Allow
  }

  ghost function AllowSet(policy: CompiledPolicy, inputs: seq<Input>, runId: string): set<nat> {
    set i: nat | i < |inputs| && AllowAt(policy, inputs, runId, i)
  }

  lemma AllowAtFront(policy: CompiledPolicy, inputs: seq<Input>, runId: string, i: nat)
    requires i < |inputs| - 1
    ensures AllowAt(policy, inputs, runId, i) == AllowAt(policy, Front(inputs), runId, i)
  {
    assert Front(inputs)[..i + 1] == inputs[..i + 1];
  }

  lemma {:induction false} AllowSetSize(policy: CompiledPolicy, inputs: seq<Input>, runId: string)
    ensures |AllowSet(policy, inputs, runId)| == AllowCount(policy, inputs, runId)
    decreases |inputs|
  {
    hide Enforce, Answer;
    if inputs != [] {
      var n := |inputs| - 1;
      AllowSetSize(policy, Front(inputs), runId);
      AllowSetStep(policy, inputs, runId);
      assert inputs[..n + 1] == inputs;
    }
  }

  lemma AllowSetStep(policy: CompiledPolicy, inputs: seq<Input>, runId: string)
    requires inputs != []
    ensures var before, n := AllowSet(policy, Front(inputs), runId), |inputs| - 1;
            && n !in before
            && AllowSet(policy, inputs, runId) == if AllowAt(policy, inputs, runId, n) then before + {n} else before
  {
    hide AllowAt;
    forall i: nat | i < |inputs| - 1
      ensures AllowAt(policy, inputs, runId, i) == AllowAt(policy, Front(inputs), runId, i)
    {
      AllowAtFront(policy, inputs, runId, i);
    }
  }

  function Indices(gs: seq<Grant>): set<nat> {
    set a | 0 <= a < |gs| :: gs[a].index
  }

  lemma {:induction false} DistinctIndices(gs: seq<Grant>)
    requires forall a, b :: 0 <= a < b < |gs| ==> gs[a].index != gs[b].index
    ensures |Indices(gs)| == |gs|
  {
    if gs != [] {
      DistinctIndices(Front(gs));
      assert Indices(gs) == Indices(Front(gs)) + {Last(gs).index};
    }
  }

  lemma SubsetSize<T>(a: set<T>, b: set<T>)
    requires a <= b
    ensures |a| <= |b|
  {
    assert b == a + (b - a);
  }

  /**
   Grants have distinct seqs, hence stand on distinct Allows; and the engine never gives a run more
   Allows than its call cap.
   */
  lemma GrantsAreBounded(policy: CompiledPolicy, inputs: seq<Input>, sent: seq<Request>, runId: string, gs: seq<Grant>)
    requires forall k :: 0 <= k < |sent| ==> sent[k].seqNo == k + 1
    requires AllBacked(policy, inputs, sent, runId, gs)
    requires policy.budget.Some? && policy.budget.value.callCount.Some?
    ensures |gs| <= policy.budget.value.callCount.value.hard
  {
    hide Answer, AllowCount;
    forall a, b | 0 <= a < b < |gs|
      ensures gs[a].index != gs[b].index
    {
      assert Backed(policy, inputs, sent, runId, gs[a]) && Backed(policy, inputs, sent, runId, gs[b]);
    }
    DistinctIndices(gs);
    assert Indices(gs) <= AllowSet(policy, inputs, runId);
    SubsetSize(Indices(gs), AllowSet(policy, inputs, runId));
    AllowSetSize(policy, inputs, runId);
    AllowsAreBounded(policy, inputs, runId);
  }

  class Guard {
    const conn: EngineConnection
    const runId: string
    const failOpen: bool
    const identity: Identity
    var seqNo: nat
    /** The calls let through because the engine allowed them. */
    ghost var grants: seq<Grant>
    /** The number of calls let through because the engine could not be reached. */
    ghost var unguarded: nat

    constructor (network: Network, runId: string, failOpen: bool, identity: Identity)
      requires network.Valid() && network.sent == []
      ensures Valid() && conn.network == network && this.runId == runId && this.failOpen == failOpen
      ensures this.identity == identity && fresh(conn) && grants == [] && unguarded == 0
    {
      this.conn := new EngineConnection(network);
      this.runId := runId;
      this.failOpen := failOpen;
      this.identity := identity;
      seqNo, grants, unguarded := 0, [], 0;
    }

    ghost predicate Valid()
      reads this, conn, conn.network
    {
      && conn.Valid()
      && seqNo == |conn.network.sent|
      && (forall k :: 0 <= k < |conn.network.sent| ==> conn.network.sent[k].seqNo == k + 1)
      && AllBacked(conn.network.policy, conn.network.inputs, conn.network.sent, runId, grants)
      && (!failOpen ==> unguarded == 0)
    }

    ghost function LetThrough(): nat
      reads this
    {
      |grants| + unguarded
    }

    /** One attempt, then one reconnect and resend of the same request. */
    method Send(req: Request) returns (r: Option<Delivery>)
      requires Valid() && req in conn.network.sent
      modifies conn, conn.network`inputs, conn.network`conns
      ensures Valid() && old(conn.network.inputs) <= conn.network.inputs
      ensures r.Some? ==> Genuine(conn.network.policy, conn.network.inputs, conn.network.sent, r.value)
    {
      hide Answer, Genuine, AllGenuine, AllBacked;
      r := conn.RequestResponse(req);
      if r.None? {
        var ok := conn.Reconnect();
        if ok {
          r := conn.RequestResponse(req);
        }
      }
      BackedPersists(conn.network.policy, old(conn.network.inputs), conn.network.inputs,
                     conn.network.sent, conn.network.sent, runId, grants);
    }

    static function HandleDecision(response: Response): Outcome {
      match response.decision
      case Allow => Allowed
      case Deny => PolicyDenied
      case Cooldown => CooledDown
      case Kill => RunTerminated
      case RequireApproval => ApprovalRequired
    }

    /** The seq counter moves and a fresh request is built. */
    method NextRequest(tool: string, argsHash: string, args: Option<Json.Json>, inputTokens: Option<nat>,
                       outputTokens: Option<nat>, cost: Option<real>) returns (req: Request)
      requires Valid()
      modifies this`seqNo, conn.network`sent
      ensures Valid() && seqNo == old(seqNo) + 1
      ensures req == Request(1, runId, seqNo, tool, argsHash, args, identity.agentRole, identity.agentName, identity.model,
                             inputTokens, outputTokens, cost, identity.environment)
      ensures conn.network.sent == old(conn.network.sent) + [req]
    {
      hide Answer;
      seqNo := seqNo + 1;
      req := Request(1, runId, seqNo, tool, argsHash, args, identity.agentRole, identity.agentName, identity.model,
                     inputTokens, outputTokens, cost, identity.environment);
      ghost var sent := conn.network.sent;
      conn.network.sent := sent + [req];
      AllPersist(conn.network.policy, conn.network.inputs, conn.network.inputs, sent, conn.network.sent, conn.network.conns);
      BackedPersists(conn.network.policy, conn.network.inputs, conn.network.inputs, sent, conn.network.sent, runId, grants);
    }

    /**
     One guarded call. The outcome is fixed by what came back: nothing, a response to something else,
     or the engine's decision on this very request. It is let through exactly on an Allow, or on
     nothing when failing open.
     */
    method Check(tool: string, argsHash: string, args: Option<Json.Json>, inputTokens: Option<nat>,
                 outputTokens: Option<nat>, cost: Option<real>) returns (outcome: Outcome, ghost delivery: Option<Delivery>)
      requires Valid()
      modifies this, conn, conn.network
      ensures Valid()
      ensures delivery.Some? ==> Genuine(conn.network.policy, conn.network.inputs, conn.network.sent, delivery.value)
      ensures delivery.None? ==> outcome == if failOpen then FailedOpen else EngineUnavailable
      ensures delivery.Some? && !Echoes(delivery.value.response, seqNo, runId) ==> outcome == RunTerminated
      ensures delivery.Some? && Echoes(delivery.value.response, seqNo, runId) ==>
                var decision := delivery.value.response.decision;
                && (outcome == Allowed <==> decision == Allow)
                && (outcome == PolicyDenied <==> decision == Deny)
                && (outcome == CooledDown <==> decision == Cooldown)
                && (outcome == RunTerminated <==> decision == Kill)
                && (outcome == ApprovalRequired <==> decision == RequireApproval)
      ensures seqNo == old(seqNo) + 1 && old(conn.network.inputs) <= conn.network.inputs
      ensures outcome == Allowed ==>
                && |grants| == |old(grants)| + 1 && Front(grants) == old(grants)
                && Last(grants).seqNo == seqNo && unguarded == old(unguarded)
      ensures outcome == FailedOpen ==> failOpen && grants == old(grants) && unguarded == old(unguarded) + 1
      ensures outcome != Allowed && outcome != FailedOpen ==> grants == old(grants) && unguarded == old(unguarded)
    {
      hide Answer, Genuine, AllGenuine;
      var req := NextRequest(tool, argsHash, args, inputTokens, outputTokens, cost);
      assert Last(conn.network.sent) == req;
      var answer := Send(req);
      delivery := answer;
      if answer.None? {
        if failOpen {
          unguarded := unguarded + 1;
          outcome := FailedOpen;
          return;
        }
        outcome := EngineUnavailable;
        return;
      }
      var response := answer.value.response;
      if response.seqNo != seqNo || response.runId != runId {
        outcome := RunTerminated;
        return;
      }
      if response.decision == Allow {
        GrantIsBacked(conn.network.policy, conn.network.inputs, conn.network.sent, runId, answer.value);
        BackedAppends(conn.network.policy, conn.network.inputs, conn.network.sent, runId, grants,
                      Grant(seqNo, answer.value.source.value));
        grants := grants + [Grant(seqNo, answer.value.source.value)];
      }
      outcome := HandleDecision(response);
    }

    /** With `fail_open` off, no more calls are ever let through than the policy's call cap. */
    lemma LetThroughIsBounded()
      requires Valid() && !failOpen
      requires conn.network.policy.budget.Some? && conn.network.policy.budget.value.callCount.Some?
      ensures LetThrough() <= conn.network.policy.budget.value.callCount.value.hard
    {
      GrantsAreBounded(conn.network.policy, conn.network.inputs, conn.network.sent, runId, grants);
    }
  }

  /** The echo check ties an Allow to the request just sent, even after resends and stale responses. */
  lemma GrantIsBacked(policy: CompiledPolicy, inputs: seq<Input>, sent: seq<Request>, runId: string, d: Delivery)
    requires Genuine(policy, inputs, sent, d) && d.response.decision == Allow
    requires sent != [] && forall k :: 0 <= k < |sent| ==> sent[k].seqNo == k + 1
    requires d.response.seqNo == |sent| && d.response.runId == runId
    ensures d.source.Some? && Backed(policy, inputs, sent, runId, Grant(|sent|, d.source.value))
  {
    hide Answer;
    var i := d.source.value;
    assert Last(inputs[..i + 1]) == inputs[i];
    AnswerEchoes(policy, inputs[..i + 1]);
    var k :| 0 <= k < |sent| && sent[k] == inputs[i].req;
  }

  /** Every session: any number of checks with any arguments, with anything happening in between. */
  method Session(guard: Guard)
    requires guard.Valid() && !guard.failOpen && guard.LetThrough() == 0
    requires guard.conn.network.policy.budget.Some? && guard.conn.network.policy.budget.value.callCount.Some?
    modifies guard, guard.conn, guard.conn.network
    ensures guard.Valid()
    ensures guard.LetThrough() <= guard.conn.network.policy.budget.value.callCount.value.hard
  {
    hide Answer, Genuine, AllGenuine, AllBacked, Echoes;
    var calls: nat :| true;
    for i := 0 to calls
      invariant guard.Valid()
    {
      var tool: string, argsHash: string, args: Option<Json.Json> := *, *, *;
      var inputTokens: Option<nat>, outputTokens: Option<nat>, cost: Option<real> := *, *, *;
      var _, _ := guard.Check(tool, argsHash, args, inputTokens, outputTokens, cost);
      if * {
        guard.conn.Close();
      }
      ghost var before := guard.conn.network.inputs;
      guard.conn.network.Interfere();
      BackedPersists(guard.conn.network.policy, before, guard.conn.network.inputs,
                     guard.conn.network.sent, guard.conn.network.sent, guard.runId, guard.grants);
    }
    guard.LetThroughIsBounded();
  }
}
