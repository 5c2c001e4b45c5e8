/**
 Supervisor escalations. Acknowledging and resolving are each a read and an update guarded by the
 status; the timeout job expires open rows that have a timeout. All of these interleave freely. An
 escalation is resolved only after it was acknowledged. Times are in milliseconds.
 */
module Escalations {
  import opened Wrappers
  import opened Trails

  datatype Status = Open | Acknowledged | Resolved | Expired

  datatype Escalation = Escalation(
    tenant: string,
    createdAt: int,
    timeoutSeconds: Option<int>,
    status: Status,
    acknowledgedBy: Option<string>,
    acknowledgedAt: Option<int>,
    resolutionNotes: Option<string>,
    updatedAt: int)

  datatype Error = NotFound | Conflict

  datatype Action = Acknowledge | Resolve

  datatype Request = Request(id: string, tenant: string, user: string, action: Action, notes: Option<string>)

  /** What can happen to an escalation. */
  datatype Move = Handled(request: Request, time: int) | TimedOut(time: int)

  function NewEscalation(tenant: string, timeoutSeconds: Option<int>, now: int): Escalation {
    Escalation(tenant, now, timeoutSeconds, Open, None, None, None, now)
  }

  /** The status an action starts from. */
  function From(a: Action): Status {
    if a == Acknowledge then Open else Acknowledged
  }

  /** How many changes an escalation has behind it when an action may start. */
  function Rank(a: Action): nat {
    if a == Acknowledge then 0 else 1
  }

  function AfterHandling(row: Escalation, r: Request, now: int): Escalation {
    match r.action
    case Acknowledge =>
      row.(status := Acknowledged, acknowledgedBy := Some(r.user), acknowledgedAt := Some(now), resolutionNotes := r.notes, updatedAt := now)
    case Resolve =>
      row.(status := Resolved, resolutionNotes := r.notes, updatedAt := now)
  }

  function Due(row: Escalation, now: int): bool {
    row.status == Open && row.timeoutSeconds.Some? && row.createdAt + row.timeoutSeconds.value * 1000 < now
  }

  function Lapsed(row: Escalation, now: int): Escalation {
    row.(status := Expired, updatedAt := now)
  }

  ghost predicate IsHandled(m: Move, tenant: string, a: Action) {
    m.Handled? && m.request.action == a && m.request.tenant == tenant
  }

  /** The possible lives: nothing yet; acknowledged; acknowledged, then resolved; expired. */
  ghost predicate Story(created: Escalation, row: Escalation, moves: seq<Move>) {
    && created == NewEscalation(created.tenant, created.timeoutSeconds, created.createdAt)
    && match |moves|
       case 0 => row == created
       case 1 =>
         if moves[0].TimedOut? then Due(created, moves[0].time) && row == Lapsed(created, moves[0].time)
         else IsHandled(moves[0], created.tenant, Acknowledge) && row == AfterHandling(created, moves[0].request, moves[0].time)
       case _ =>
         && |moves| == 2
         && IsHandled(moves[0], created.tenant, Acknowledge) && IsHandled(moves[1], created.tenant, Resolve)
         && row == AfterHandling(AfterHandling(created, moves[0].request, moves[0].time), moves[1].request, moves[1].time)
  }

  lemma StatusMeans(created: Escalation, row: Escalation, moves: seq<Move>)
    requires Story(created, row, moves)
    ensures row.status == Open <==> moves == []
    ensures row.status == Acknowledged ==> |moves| == 1
    ensures row.status == Resolved ==> |moves| == 2
    ensures row.tenant == created.tenant
  {
  }

  lemma HandledStory(created: Escalation, row: Escalation, moves: seq<Move>, r: Request, now: int)
    requires Story(created, row, moves) && row.status == From(r.action) && r.tenant == row.tenant
    ensures Story(created, AfterHandling(row, r, now), moves + [Handled(r, now)])
  {
    var more := moves + [Handled(r, now)];
    if r.action == Acknowledge {
      assert more == [Handled(r, now)];
    } else {
      assert |more| == 2 && more[0] == moves[0] && more[1] == Handled(r, now);
    }
  }

  lemma LapsedStory(created: Escalation, row: Escalation, moves: seq<Move>, now: int)
    requires Story(created, row, moves) && Due(row, now)
    ensures Story(created, Lapsed(row, now), moves + [TimedOut(now)])
  {
    assert moves + [TimedOut(now)] == [TimedOut(now)];
  }

  /** A request that read an acknowledged row can only find it acknowledged or resolved. */
  ghost predicate InFlight(rows: map<string, Escalation>, log: seq<Entry<Move>>, r: Request, at: nat) {
    && r.id in rows && rows[r.id].tenant == r.tenant
    && (r.action == Resolve ==> rows[r.id].status == Acknowledged || rows[r.id].status == Resolved)
    && Read(log, Reading(at, r.id, Rank(r.action)))
  }

  ghost predicate AllInFlight(rows: map<string, Escalation>, log: seq<Entry<Move>>, inFlight: map<nat, Request>, readAt: map<nat, nat>) {
    && readAt.Keys == inFlight.Keys
    && forall q :: q in inFlight ==> InFlight(rows, log, inFlight[q], readAt[q])
  }

  /** Rows only move forward. */
  ghost predicate Forward(before: map<string, Escalation>, after: map<string, Escalation>) {
    forall id :: id in before ==>
      && id in after && after[id].tenant == before[id].tenant
      && (before[id].status == Acknowledged ==> after[id].status == Acknowledged || after[id].status == Resolved)
      && (before[id].status == Resolved ==> after[id].status == Resolved)
  }

  lemma RequestsStay(rows: map<string, Escalation>, log: seq<Entry<Move>>, inFlight: map<nat, Request>, readAt: map<nat, nat>,
                     after: map<string, Escalation>, more: seq<Entry<Move>>)
    requires AllInFlight(rows, log, inFlight, readAt) && Forward(rows, after)
    ensures AllInFlight(after, log + more, inFlight, readAt)
  {
    forall q | q in inFlight
      ensures InFlight(after, log + more, inFlight[q], readAt[q])
    {
      assert InFlight(rows, log, inFlight[q], readAt[q]);
      ReadStays(log, more, Reading(readAt[q], inFlight[q].id, Rank(inFlight[q].action)));
    }
  }

  lemma RequestDropped(rows: map<string, Escalation>, log: seq<Entry<Move>>, inFlight: map<nat, Request>, readAt: map<nat, nat>, q: nat)
    requires AllInFlight(rows, log, inFlight, readAt)
    ensures AllInFlight(rows, log, inFlight - {q}, readAt - {q})
  {
    hide InFlight;
  }

  lemma RequestStarted(created: map<string, Escalation>, rows: map<string, Escalation>, log: seq<Entry<Move>>,
                       inFlight: map<nat, Request>, readAt: map<nat, nat>, q: nat, r: Request)
    requires Told(Story, created, rows, log) && AllInFlight(rows, log, inFlight, readAt)
    requires r.id in rows && rows[r.id].tenant == r.tenant && rows[r.id].status == From(r.action)
    ensures AllInFlight(rows, log, inFlight[q := r], readAt[q := |log|])
  {
    hide Trail, Story;
    StatusMeans(created[r.id], rows[r.id], Trail(log, r.id));
    hide Told;
    assert log[..|log|] == log;
    assert InFlight(rows, log, r, |log|);
    hide InFlight;
  }

  /** A request in flight finds the status it needs exactly when nobody overtook it since its read. */
  lemma RequestKnown(created: map<string, Escalation>, rows: map<string, Escalation>, log: seq<Entry<Move>>,
                     inFlight: map<nat, Request>, readAt: map<nat, nat>, q: nat)
    requires Told(Story, created, rows, log) && AllInFlight(rows, log, inFlight, readAt) && q in inFlight
    ensures var r := inFlight[q];
            && r.id in rows && rows[r.id].tenant == r.tenant && q in readAt
            && (rows[r.id].status != From(r.action) <==> Overtaken(log, Reading(readAt[q], r.id, Rank(r.action))))
  {
    hide Read, Overtaken, Trail, Story;
    var r := inFlight[q];
    assert InFlight(rows, log, r, readAt[q]);
    StatusMeans(created[r.id], rows[r.id], Trail(log, r.id));
    OvertakenExactlyWhen(log, Reading(readAt[q], r.id, Rank(r.action)));
  }

  lemma HandlingTold(created: map<string, Escalation>, rows: map<string, Escalation>, log: seq<Entry<Move>>, r: Request, now: int)
    requires Told(Story, created, rows, log)
    requires r.id in rows && rows[r.id].status == From(r.action) && rows[r.id].tenant == r.tenant
    ensures Told(Story, created, rows[r.id := AfterHandling(rows[r.id], r, now)], log + [Entry(r.id, Handled(r, now))])
    ensures Forward(rows, rows[r.id := AfterHandling(rows[r.id], r, now)])
  {
    hide Trail, Story;
    HandledStory(created[r.id], rows[r.id], Trail(log, r.id), r, now);
    ToldAct(Story, created, rows, log, r.id, AfterHandling(rows[r.id], r, now), Handled(r, now));
  }

  function Swept(rows: map<string, Escalation>, now: int): map<string, Escalation> {
    map id | id in rows :: if Due(rows[id], now) then Lapsed(rows[id], now) else rows[id]
  }

  function DueIds(rows: map<string, Escalation>, now: int): set<string> {
    set id | id in rows && Due(rows[id], now)
  }

  /** A sweep in plain terms: what is open for longer than its own timeout in seconds expires; the rest stays as it is. */
  lemma SweptMeans(rows: map<string, Escalation>, now: int, id: string)
    requires id in rows
    ensures Swept(rows, now).Keys == rows.Keys
    ensures var row := rows[id];
            var late := row.status == Open && row.timeoutSeconds.Some? && row.createdAt + 1000 * row.timeoutSeconds.value < now;
            && (late ==> Swept(rows, now)[id] == row.(status := Expired, updatedAt := now) && id in DueIds(rows, now))
            && (!late ==> Swept(rows, now)[id] == row && id !in DueIds(rows, now))
  {
  }

  lemma SweepTold(created: map<string, Escalation>, rows: map<string, Escalation>, log: seq<Entry<Move>>, now: int,
                  more: seq<Entry<Move>>)
    requires Told(Story, created, rows, log) && Bulk(more, DueIds(rows, now), TimedOut(now))
    ensures Told(Story, created, Swept(rows, now), log + more)
    ensures Forward(rows, Swept(rows, now))
  {
    hide Trail, Story, Bulk;
    forall id | id in DueIds(rows, now)
      ensures Story(created[id], Swept(rows, now)[id], Trail(log, id) + [TimedOut(now)])
    {
      LapsedStory(created[id], rows[id], Trail(log, id), now);
    }
    ToldBulk(Story, created, rows, log, DueIds(rows, now), Swept(rows, now), TimedOut(now), more);
  }

  class EscalationTable {
    var rows: map<string, Escalation>
    /** The requests that have read and not yet written. */
    var inFlight: map<nat, Request>

    ghost var created: map<string, Escalation>
    /** Every change that took effect, in order. */
    ghost var log: seq<Entry<Move>>
    ghost var readAt: map<nat, nat>

    constructor ()
      ensures Valid() && rows == map[] && inFlight == map[] && created == map[] && log == []
    {
      rows, inFlight := map[], map[];
      created, log, readAt := map[], [], map[];
    }

    ghost predicate Valid()
      reads this
    {
      && Told(Story, created, rows, log)
      && AllInFlight(rows, log, inFlight, readAt)
    }

    method Insert(id: string, tenant: string, timeoutSeconds: Option<int>, now: int)
      requires Valid() && id !in rows
      modifies this`rows, this`created
      ensures Valid()
      ensures rows == old(rows)[id := NewEscalation(tenant, timeoutSeconds, now)]
      ensures created == old(created)[id := NewEscalation(tenant, timeoutSeconds, now)]
    {
      hide Told, AllInFlight;
      var row := NewEscalation(tenant, timeoutSeconds, now);
      assert Story(row, row, []);
      ToldInsert(Story, created, rows, log, id, row);
      RequestsStay(rows, log, inFlight, readAt, rows[id := row], []);
      assert log + [] == log;
      rows, created := rows[id := row], created[id := row];
    }

    /** The read of acknowledgeEscalation and resolveEscalation. */
    method Begin(q: nat, r: Request) returns (error: Option<Error>)
      requires Valid() && q !in inFlight
      modifies this`inFlight, this`readAt
      ensures Valid()
      ensures error == if r.id !in rows || rows[r.id].tenant != r.tenant then Some(NotFound)
                       else if rows[r.id].status != From(r.action) then Some(Conflict)
                       else None
      ensures inFlight == (if error.None? then old(inFlight)[q := r] else old(inFlight))
      ensures readAt == (if error.None? then old(readAt)[q := |log|] else old(readAt))
    {
      hide Told, AllInFlight;
      if r.id !in rows || rows[r.id].tenant != r.tenant {
        return Some(NotFound);
      }
      if rows[r.id].status != From(r.action) {
        return Some(Conflict);
      }
      RequestStarted(created, rows, log, inFlight, readAt, q, r);
      inFlight, readAt := inFlight[q := r], readAt[q := |log|];
      return None;
    }

    /** The guarded write. It is refused exactly when the row changed after this request's read. */
    method Finish(q: nat, now: int) returns (result: Result<Escalation, Error>)
      requires Valid() && q in inFlight
      modifies this
      ensures Valid() && created == old(created) && inFlight == old(inFlight) - {q}
      ensures old(inFlight)[q].id in old(rows) && q in old(readAt)
      ensures var r := old(inFlight)[q];
              var row := old(rows)[r.id];
              && result == (if row.status == From(r.action) then Success(AfterHandling(row, r, now)) else Failure(Conflict))
              && rows == (if result.Success? then old(rows)[r.id := result.value] else old(rows))
              && log == (if result.Success? then old(log) + [Entry(r.id, Handled(r, now))] else old(log))
              && (result.Failure? <==> Overtaken(old(log), Reading(old(readAt)[q], r.id, Rank(r.action))))
    {
      hide Told, Trail, Overtaken, AllInFlight, Story, AfterHandling, Forward;
      RequestKnown(created, rows, log, inFlight, readAt, q);
      var r := inFlight[q];
      var row := rows[r.id];
      if row.tenant == r.tenant && row.status == From(r.action) {
        var updated := AfterHandling(row, r, now);
        HandlingTold(created, rows, log, r, now);
        RequestsStay(rows, log, inFlight, readAt, rows[r.id := updated], [Entry(r.id, Handled(r, now))]);
        rows := rows[r.id := updated];
        log := log + [Entry(r.id, Handled(r, now))];
        result := Success(updated);
      } else {
        result := Failure(Conflict);
      }
      RequestDropped(rows, log, inFlight, readAt, q);
      inFlight, readAt := inFlight - {q}, readAt - {q};
    }

    /** The timeout job: one statement that expires every open escalation past its own timeout. */
    method ExpireEscalations(now: int) returns (expired: nat)
      requires Valid()
      modifies this`rows, this`log
      ensures Valid()
      ensures rows == Swept(old(rows), now)
      ensures expired == |DueIds(old(rows), now)|
      ensures exists more :: Bulk(more, DueIds(old(rows), now), TimedOut(now)) && log == old(log) + more
    {
      hide Told, AllInFlight, Due, Bulk, Forward;
      var due := DueIds(rows, now);
      ghost var more := BulkExists(due, TimedOut(now));
      SweepTold(created, rows, log, now, more);
      RequestsStay(rows, log, inFlight, readAt, Swept(rows, now), more);
      rows, log := Swept(rows, now), log + more;
      return |due|;
    }
  }

  datatype Step =
    | Escalate(id: string, tenant: string, timeoutSeconds: Option<int>)
    | StartRequest(q: nat, request: Request)
    | EndRequest(q: nat)
    | Sweep

  predicate ByUser(m: Move) {
    m.Handled?
  }

  /**
   What an escalation shows, given the successful answers that users got for it: none while it is
   open or expired, an acknowledgement, or an acknowledgement and then a resolution. A resolved one
   names who acknowledged it.
   */
  ghost predicate Outcome(row: Escalation, answers: seq<Move>) {
    match row.status
    case Open => answers == [] && row.acknowledgedBy == None
    case Acknowledged =>
      && |answers| == 1 && IsHandled(answers[0], row.tenant, Acknowledge)
      && row.acknowledgedBy == Some(answers[0].request.user) && row.acknowledgedAt == Some(answers[0].time)
      && row.resolutionNotes == answers[0].request.notes && row.updatedAt == answers[0].time
    case Resolved =>
      && |answers| == 2 && IsHandled(answers[0], row.tenant, Acknowledge) && IsHandled(answers[1], row.tenant, Resolve)
      && row.acknowledgedBy == Some(answers[0].request.user) && row.acknowledgedAt == Some(answers[0].time)
      && row.resolutionNotes == answers[1].request.notes && row.updatedAt == answers[1].time
    case Expired => answers == [] && row.acknowledgedBy == None
  }

  /** An expired escalation has a timeout, and a sweep came after it. */
  ghost predicate ExpiredInTime(row: Escalation, moves: seq<Move>) {
    row.status == Expired ==>
      && row.timeoutSeconds.Some?
      && exists time :: moves == [TimedOut(time)] && row.createdAt + 1000 * row.timeoutSeconds.value < time
  }

  /** What an escalation was raised with never changes. */
  ghost predicate SameOrigin(created: Escalation, row: Escalation) {
    row.tenant == created.tenant && row.createdAt == created.createdAt && row.timeoutSeconds == created.timeoutSeconds
  }

  lemma StoryEnds(created: Escalation, row: Escalation, moves: seq<Move>)
    requires Story(created, row, moves)
    ensures Outcome(row, Kept(moves, ByUser)) && ExpiredInTime(row, moves) && SameOrigin(created, row)
  {
    KeptShrinks(moves, ByUser);
    if |moves| == 1 && moves[0].TimedOut? {
      assert moves == [TimedOut(moves[0].time)];
    }
  }

  lemma NothingAnswered()
    ensures Answered<Move>([], [], ByUser)
  {
  }

  /** The table, the requests between their statements, and the answers of success so far. */
  datatype Desk = Desk(rows: map<string, Escalation>, inFlight: map<nat, Request>, answers: seq<Entry<Move>>)

  /** What one statement does to everything. */
  function Next(s: Desk, step: Step, now: int): Desk {
    match step
    case Escalate(id, tenant, timeoutSeconds) =>
      if id in s.rows then s else s.(rows := s.rows[id := NewEscalation(tenant, timeoutSeconds, now)])
    case StartRequest(q, r) =>
      if q !in s.inFlight && r.id in s.rows && s.rows[r.id].tenant == r.tenant && s.rows[r.id].status == From(r.action)
      then s.(inFlight := s.inFlight[q := r]) else s
    case EndRequest(q) =>
      if q !in s.inFlight then s
      else
        var r, waiting := s.inFlight[q], s.inFlight - {q};
        if r.id in s.rows && s.rows[r.id].status == From(r.action) then
          Desk(s.rows[r.id := AfterHandling(s.rows[r.id], r, now)], waiting, s.answers + [Entry(r.id, Handled(r, now))])
        else s.(inFlight := waiting)
    case Sweep => s.(rows := Swept(s.rows, now))
  }

  function Run(schedule: seq<Step>, clock: nat -> int): Desk {
    if schedule == [] then Desk(map[], map[], [])
    else Next(Run(Front(schedule), clock), Last(schedule), clock(|schedule| - 1))
  }

  /** The escalations as inserted: the first insert of each id. */
  function Inserts(schedule: seq<Step>, clock: nat -> int): map<string, Escalation> {
    if schedule == [] then map[]
    else
      var before := Inserts(Front(schedule), clock);
      match Last(schedule)
      case Escalate(id, tenant, timeoutSeconds) =>
        if id in before then before else before[id := NewEscalation(tenant, timeoutSeconds, clock(|schedule| - 1))]
      case _ => before
  }

  /**
   Any schedule of inserts, reads, writes and sweeps comes out as the run of its statements says.
   There is a row for exactly the escalations inserted, and each lived one of the possible lives.
   */
  method Serve(schedule: seq<Step>, clock: nat -> int)
    returns (rows: map<string, Escalation>, answers: seq<Entry<Move>>, ghost log: seq<Entry<Move>>)
    ensures rows == Run(schedule, clock).rows && answers == Run(schedule, clock).answers
    ensures rows.Keys == Inserts(schedule, clock).Keys
    ensures forall id :: id in rows ==> Story(Inserts(schedule, clock)[id], rows[id], Trail(log, id))
    ensures forall id :: id in rows ==> SameOrigin(Inserts(schedule, clock)[id], rows[id])
    ensures forall id :: id in rows ==> Outcome(rows[id], Trail(answers, id)) && ExpiredInTime(rows[id], Trail(log, id))
    ensures Answered(answers, log, ByUser)
  {
    hide Answered, Bulk, Told, AllInFlight, Story, Outcome, ExpiredInTime, Trail, Swept, AfterHandling, DueIds;
    NothingAnswered();
    var table := new EscalationTable();
    answers := [];
    for n := 0 to |schedule|
      invariant fresh(table) && table.Valid() && Answered(answers, table.log, ByUser)
      invariant Desk(table.rows, table.inFlight, answers) == Run(schedule[..n], clock)
      invariant table.created == Inserts(schedule[..n], clock)
    {
      assert Front(schedule[..n + 1]) == schedule[..n] && Last(schedule[..n + 1]) == schedule[n];
      CreatedKeys(table.created, table.rows, table.log);
      ghost var before := table.log;
      match schedule[n]
      case Escalate(id, tenant, timeoutSeconds) =>
        if id !in table.rows {
          table.Insert(id, tenant, timeoutSeconds, clock(n));
        }
      case StartRequest(q, request) =>
        if q !in table.inFlight {
          var _ := table.Begin(q, request);
        }
      case EndRequest(q) =>
        if q in table.inFlight {
          var request := table.inFlight[q];
          var result := table.Finish(q, clock(n));
          if result.Success? {
            AnsweredAct(answers, before, ByUser, Entry(request.id, Handled(request, clock(n))));
            answers := answers + [Entry(request.id, Handled(request, clock(n)))];
          }
        }
      case Sweep =>
        ghost var due := DueIds(table.rows, clock(n));
        var _ := table.ExpireEscalations(clock(n));
        ghost var more :| Bulk(more, due, TimedOut(clock(n))) && table.log == before + more;
        AnsweredBulk(answers, before, ByUser, more, due, TimedOut(clock(n)));
    }
    assert schedule[..|schedule|] == schedule;
    rows, log := table.rows, table.log;
    CreatedKeys(table.created, rows, log);
    forall id | id in rows
      ensures Story(table.created[id], rows[id], Trail(log, id)) && SameOrigin(table.created[id], rows[id])
      ensures Outcome(rows[id], Trail(answers, id)) && ExpiredInTime(rows[id], Trail(log, id))
    {
      TrailEnds(table.created, rows, answers, log, id);
    }
  }

  lemma CreatedKeys(created: map<string, Escalation>, rows: map<string, Escalation>, log: seq<Entry<Move>>)
    requires Told(Story, created, rows, log)
    ensures created.Keys == rows.Keys
  {
  }

  lemma TrailEnds(created: map<string, Escalation>, rows: map<string, Escalation>, answers: seq<Entry<Move>>,
                  log: seq<Entry<Move>>, id: string)
    requires Told(Story, created, rows, log) && Answered(answers, log, ByUser) && id in rows
    ensures Story(created[id], rows[id], Trail(log, id)) && SameOrigin(created[id], rows[id])
    ensures Outcome(rows[id], Trail(answers, id)) && ExpiredInTime(rows[id], Trail(log, id))
  {
    hide Outcome, Trail, Kept, ExpiredInTime, Story;
    StoryEnds(created[id], rows[id], Trail(log, id));
  }
}
