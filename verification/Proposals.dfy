/**
 Supervisor proposals. A review is two database statements, a read and an update guarded by the
 status; the timeout job expires rows in bulk. All of these interleave freely. A proposal leaves
 `pending` at most once. Times are in milliseconds.
 */
module Proposals {
  import opened Wrappers
  import opened Trails

  const PROPOSAL_TIMEOUT_SECONDS := 86400

  datatype Error = NotFound | Conflict

  datatype Status = Pending | Approved | Rejected | Expired

  datatype Proposal = Proposal(
    tenant: string,
    createdAt: int,
    status: Status,
    reviewedBy: Option<string>,
    reviewedAt: Option<int>,
    reviewNotes: Option<string>,
    updatedAt: int)

  datatype Verdict = Approve(notes: Option<string>) | Reject(reason: string)

  datatype Review = Review(id: string, tenant: string, user: string, verdict: Verdict)

  /** What can happen to a proposal. */
  datatype Decision = Decided(review: Review, time: int) | TimedOut(time: int)

  function NewProposal(tenant: string, now: int): Proposal {
    Proposal(tenant, now, Pending, None, None, None, now)
  }

  function Reviewed(row: Proposal, r: Review, now: int): Proposal {
    row.(status := if r.verdict.Approve? then Approved else Rejected,
         reviewedBy := Some(r.user),
         reviewedAt := Some(now),
         reviewNotes := if r.verdict.Approve? then r.verdict.notes else Some(r.verdict.reason),
         updatedAt := now)
  }

  function Due(row: Proposal, now: int): bool {
    row.status == Pending && row.createdAt < now - PROPOSAL_TIMEOUT_SECONDS * 1000
  }

  function Lapsed(row: Proposal, now: int): Proposal {
    row.(status := Expired, updatedAt := now)
  }

  /** At most one decision; the row shows that decision and no other. Only old proposals time out. */
  ghost predicate Story(created: Proposal, row: Proposal, decisions: seq<Decision>) {
    && created == NewProposal(created.tenant, created.createdAt)
    && |decisions| <= 1
    && (decisions == [] ==> row == created)
    && (decisions != [] ==>
          match decisions[0]
          case Decided(r, time) => r.tenant == created.tenant && row == Reviewed(created, r, time)
          case TimedOut(time) => Due(created, time) && row == Lapsed(created, time))
  }

  lemma PendingMeans(created: Proposal, row: Proposal, decisions: seq<Decision>)
    requires Story(created, row, decisions)
    ensures row.status == Pending <==> decisions == []
    ensures row.status == Pending ==> row == created
    ensures row.tenant == created.tenant
  {
  }

  lemma DecidedStory(created: Proposal, row: Proposal, decisions: seq<Decision>, r: Review, now: int)
    requires Story(created, row, decisions) && row.status == Pending && r.tenant == row.tenant
    ensures Story(created, Reviewed(row, r, now), decisions + [Decided(r, now)])
  {
    assert [] + [Decided(r, now)] == [Decided(r, now)];
  }

  lemma TimedOutStory(created: Proposal, row: Proposal, decisions: seq<Decision>, now: int)
    requires Story(created, row, decisions) && Due(row, now)
    ensures Story(created, Lapsed(row, now), decisions + [TimedOut(now)])
  {
    assert [] + [TimedOut(now)] == [TimedOut(now)];
  }

  ghost predicate ReviewsInFlight(rows: map<string, Proposal>, log: seq<Entry<Decision>>,
                                  inFlight: map<nat, Review>, readAt: map<nat, nat>)
  {
    && readAt.Keys == inFlight.Keys
    && forall q :: q in inFlight ==>
         && inFlight[q].id in rows && rows[inFlight[q].id].tenant == inFlight[q].tenant
         && Read(log, Reading(readAt[q], inFlight[q].id, 0))
  }

  lemma ReviewsStay(rows: map<string, Proposal>, log: seq<Entry<Decision>>, inFlight: map<nat, Review>, readAt: map<nat, nat>,
                    after: map<string, Proposal>, more: seq<Entry<Decision>>)
    requires ReviewsInFlight(rows, log, inFlight, readAt)
    requires forall id :: id in rows ==> id in after && after[id].tenant == rows[id].tenant
    ensures ReviewsInFlight(after, log + more, inFlight, readAt)
  {
    forall q | q in inFlight
      ensures Read(log + more, Reading(readAt[q], inFlight[q].id, 0))
    {
      ReadStays(log, more, Reading(readAt[q], inFlight[q].id, 0));
    }
  }

  lemma ReviewDropped(rows: map<string, Proposal>, log: seq<Entry<Decision>>, inFlight: map<nat, Review>, readAt: map<nat, nat>, q: nat)
    requires ReviewsInFlight(rows, log, inFlight, readAt)
    ensures ReviewsInFlight(rows, log, inFlight - {q}, readAt - {q})
  {
    hide Read;
  }

  lemma ReviewStarted(created: map<string, Proposal>, rows: map<string, Proposal>, log: seq<Entry<Decision>>,
                      inFlight: map<nat, Review>, readAt: map<nat, nat>, q: nat, r: Review)
    requires Told(Story, created, rows, log) && ReviewsInFlight(rows, log, inFlight, readAt)
    requires r.id in rows && rows[r.id].tenant == r.tenant && rows[r.id].status == Pending
    ensures ReviewsInFlight(rows, log, inFlight[q := r], readAt[q := |log|])
  {
    hide Trail;
    PendingMeans(created[r.id], rows[r.id], Trail(log, r.id));
    hide Told, Story;
    assert log[..|log|] == log;
    assert Read(log, Reading(|log|, r.id, 0));
    hide Read;
  }

  /** A review in flight finds its proposal decided exactly when it was overtaken since its read. */
  lemma ReviewKnown(created: map<string, Proposal>, rows: map<string, Proposal>, log: seq<Entry<Decision>>,
                    inFlight: map<nat, Review>, readAt: map<nat, nat>, q: nat)
    requires Told(Story, created, rows, log) && ReviewsInFlight(rows, log, inFlight, readAt) && q in inFlight
    ensures var r := inFlight[q];
            && r.id in rows && rows[r.id].tenant == r.tenant && q in readAt
            && (rows[r.id].status != Pending <==> Overtaken(log, Reading(readAt[q], r.id, 0)))
  {
    hide Read, Overtaken, Trail;
    var id := inFlight[q].id;
    PendingMeans(created[id], rows[id], Trail(log, id));
    OvertakenExactlyWhen(log, Reading(readAt[q], id, 0));
  }

  lemma DecisionTold(created: map<string, Proposal>, rows: map<string, Proposal>, log: seq<Entry<Decision>>, r: Review, now: int)
    requires Told(Story, created, rows, log)
    requires r.id in rows && rows[r.id].status == Pending && rows[r.id].tenant == r.tenant
    ensures Told(Story, created, rows[r.id := Reviewed(rows[r.id], r, now)], log + [Entry(r.id, Decided(r, now))])
  {
    hide Trail, Story;
    DecidedStory(created[r.id], rows[r.id], Trail(log, r.id), r, now);
    ToldAct(Story, created, rows, log, r.id, Reviewed(rows[r.id], r, now), Decided(r, now));
  }

  function Swept(rows: map<string, Proposal>, now: int): map<string, Proposal> {
    map id | id in rows :: if Due(rows[id], now) then Lapsed(rows[id], now) else rows[id]
  }

  function DueIds(rows: map<string, Proposal>, now: int): set<string> {
    set id | id in rows && Due(rows[id], now)
  }

  /** A sweep in plain terms: what is pending for more than 24 hours, 86 400 000 ms, expires; the rest stays as it is. */
  lemma SweptMeans(rows: map<string, Proposal>, now: int, id: string)
    requires id in rows
    ensures Swept(rows, now).Keys == rows.Keys
    ensures rows[id].status == Pending && rows[id].createdAt + 86_400_000 < now ==>
              Swept(rows, now)[id] == rows[id].(status := Expired, updatedAt := now) && id in DueIds(rows, now)
    ensures !(rows[id].status == Pending && rows[id].createdAt + 86_400_000 < now) ==>
              Swept(rows, now)[id] == rows[id] && id !in DueIds(rows, now)
  {
  }

  lemma SweepTold(created: map<string, Proposal>, rows: map<string, Proposal>, log: seq<Entry<Decision>>, now: int,
                  more: seq<Entry<Decision>>)
    requires Told(Story, created, rows, log) && Bulk(more, DueIds(rows, now), TimedOut(now))
    ensures Told(Story, created, Swept(rows, now), log + more)
  {
    hide Trail, Story, Bulk;
    forall id | id in DueIds(rows, now)
      ensures Story(created[id], Swept(rows, now)[id], Trail(log, id) + [TimedOut(now)])
    {
      TimedOutStory(created[id], rows[id], Trail(log, id), now);
    }
    ToldBulk(Story, created, rows, log, DueIds(rows, now), Swept(rows, now), TimedOut(now), more);
  }

  class ProposalTable {
    var rows: map<string, Proposal>
    /** The reviews that have read and not yet written. */
    var inFlight: map<nat, Review>

    ghost var created: map<string, Proposal>
    /** Every decision that took effect, in order. */
    ghost var log: seq<Entry<Decision>>
    ghost var readAt: map<nat, nat>

    constructor ()
      ensures Valid() && rows == map[] && inFlight == map[] && created == map[] && log == []
    {
      rows, inFlight := map[], map[];
      created, log, readAt := map[], [], map[];
    }

    ghost predicate Valid()
      reads this
    {
      && Told(Story, created, rows, log)
      && ReviewsInFlight(rows, log, inFlight, readAt)
    }

    method Insert(id: string, tenant: string, now: int)
      requires Valid() && id !in rows
      modifies this`rows, this`created
      ensures Valid()
      ensures rows == old(rows)[id := NewProposal(tenant, now)]
      ensures created == old(created)[id := NewProposal(tenant, now)]
    {
      hide Told, ReviewsInFlight;
      var row := NewProposal(tenant, now);
      assert Story(row, row, []);
      ToldInsert(Story, created, rows, log, id, row);
      ReviewsStay(rows, log, inFlight, readAt, rows[id := row], []);
      assert log + [] == log;
      rows, created := rows[id := row], created[id := row];
    }

    /** The read of approveProposal and rejectProposal. */
    method Begin(q: nat, r: Review) returns (error: Option<Error>)
      requires Valid() && q !in inFlight
      modifies this`inFlight, this`readAt
      ensures Valid()
      ensures error == if r.id !in rows || rows[r.id].tenant != r.tenant then Some(NotFound)
                       else if rows[r.id].status != Pending then Some(Conflict)
                       else None
      ensures inFlight == (if error.None? then old(inFlight)[q := r] else old(inFlight))
      ensures readAt == (if error.None? then old(readAt)[q := |log|] else old(readAt))
    {
      hide Told, ReviewsInFlight;
      if r.id !in rows || rows[r.id].tenant != r.tenant {
        return Some(NotFound);
      }
      if rows[r.id].status != Pending {
        return Some(Conflict);
      }
      ReviewStarted(created, rows, log, inFlight, readAt, q, r);
      inFlight, readAt := inFlight[q := r], readAt[q := |log|];
      return None;
    }

    /**
     The guarded write. It is refused exactly when someone else decided the proposal, or it timed
     out, after this review's read.
     */
    method Finish(q: nat, now: int) returns (result: Result<Proposal, Error>)
      requires Valid() && q in inFlight
      modifies this
      ensures Valid() && created == old(created) && inFlight == old(inFlight) - {q}
      ensures old(inFlight)[q].id in old(rows) && q in old(readAt)
      ensures var r := old(inFlight)[q];
              var row := old(rows)[r.id];
              && result == (if row.status == Pending then Success(Reviewed(row, r, now)) else Failure(Conflict))
              && rows == (if result.Success? then old(rows)[r.id := result.value] else old(rows))
              && log == (if result.Success? then old(log) + [Entry(r.id, Decided(r, now))] else old(log))
              && (result.Failure? <==> Overtaken(old(log), Reading(old(readAt)[q], r.id, 0)))
    {
      hide Told, Trail, Overtaken, ReviewsInFlight, Story;
      ReviewKnown(created, rows, log, inFlight, readAt, q);
      var r := inFlight[q];
      var row := rows[r.id];
      if row.tenant == r.tenant && row.status == Pending {
        var updated := Reviewed(row, r, now);
        DecisionTold(created, rows, log, r, now);
        ReviewsStay(rows, log, inFlight, readAt, rows[r.id := updated], [Entry(r.id, Decided(r, now))]);
        rows := rows[r.id := updated];
        log := log + [Entry(r.id, Decided(r, now))];
        result := Success(updated);
      } else {
        result := Failure(Conflict);
      }
      ReviewDropped(rows, log, inFlight, readAt, q);
      inFlight, readAt := inFlight - {q}, readAt - {q};
    }

    /** The timeout job: one statement that expires every pending proposal older than a day. */
    method ExpireProposals(now: int) returns (expired: nat)
      requires Valid()
      modifies this`rows, this`log
      ensures Valid()
      ensures rows == Swept(old(rows), now)
      ensures expired == |DueIds(old(rows), now)|
      ensures exists more :: Bulk(more, DueIds(old(rows), now), TimedOut(now)) && log == old(log) + more
    {
      hide Told, ReviewsInFlight, Due, Bulk;
      var due := DueIds(rows, now);
      ghost var more := BulkExists(due, TimedOut(now));
      SweepTold(created, rows, log, now, more);
      ReviewsStay(rows, log, inFlight, readAt, Swept(rows, now), more);
      rows, log := Swept(rows, now), log + more;
      return |due|;
    }
  }

  datatype Step =
    | Propose(id: string, tenant: string)
    | StartReview(q: nat, review: Review)
    | EndReview(q: nat)
    | Sweep

  predicate ByReviewer(d: Decision) {
    d.Decided?
  }

  /**
   What a proposal shows, given the successful answers that reviewers got for it: there is at most
   one, the row is approved or rejected exactly if there is one, and then as that answer said.
   */
  ghost predicate Outcome(row: Proposal, answers: seq<Decision>) {
    && |answers| <= 1
    && (answers == [] <==> row.status == Pending || row.status == Expired)
    && (answers == [] ==> row.reviewedBy == None && row.reviewedAt == None && row.reviewNotes == None)
    && (answers != [] ==>
          && ByReviewer(answers[0])
          && var Decided(r, time) := answers[0];
             && r.tenant == row.tenant
             && row.status == (if r.verdict.Approve? then Approved else Rejected)
             && row.reviewedBy == Some(r.user) && row.reviewedAt == Some(time) && row.updatedAt == time
             && row.reviewNotes == (if r.verdict.Approve? then r.verdict.notes else Some(r.verdict.reason)))
  }

  /** An expired proposal had a deadline sweep later than a day after its creation. */
  ghost predicate ExpiredInTime(row: Proposal, decisions: seq<Decision>) {
    row.status == Expired ==>
      exists time :: decisions == [TimedOut(time)] && row.createdAt + 86_400_000 < time
  }

  lemma StoryEnds(created: Proposal, row: Proposal, decisions: seq<Decision>)
    requires Story(created, row, decisions)
    ensures Outcome(row, Kept(decisions, ByReviewer)) && ExpiredInTime(row, decisions)
    ensures row.tenant == created.tenant && row.createdAt == created.createdAt
  {
    KeptShrinks(decisions, ByReviewer);
    if decisions != [] && decisions[0].TimedOut? {
      assert decisions == [TimedOut(decisions[0].time)];
    }
  }

  lemma NothingAnswered()
    ensures Answered<Decision>([], [], ByReviewer)
  {
  }

  /** The table, the reviews between their statements, and the answers of success so far. */
  datatype Desk = Desk(rows: map<string, Proposal>, inFlight: map<nat, Review>, answers: seq<Entry<Decision>>)

  /** What one statement does to everything. */
  function Next(s: Desk, step: Step, now: int): Desk {
    match step
    case Propose(id, tenant) => if id in s.rows then s else s.(rows := s.rows[id := NewProposal(tenant, now)])
    case StartReview(q, r) =>
      if q !in s.inFlight && r.id in s.rows && s.rows[r.id].tenant == r.tenant && s.rows[r.id].status == Pending
      then s.(inFlight := s.inFlight[q := r]) else s
    case EndReview(q) =>
      if q !in s.inFlight then s
      else
        var r, waiting := s.inFlight[q], s.inFlight - {q};
        if r.id in s.rows && s.rows[r.id].status == Pending then
          Desk(s.rows[r.id := Reviewed(s.rows[r.id], r, now)], waiting, s.answers + [Entry(r.id, Decided(r, now))])
        else s.(inFlight := waiting)
    case Sweep => s.(rows := Swept(s.rows, now))
  }

  function Run(schedule: seq<Step>, clock: nat -> int): Desk {
    if schedule == [] then Desk(map[], map[], [])
    else Next(Run(Front(schedule), clock), Last(schedule), clock(|schedule| - 1))
  }

  /** The proposals as inserted: the first insert of each id. */
  function Inserts(schedule: seq<Step>, clock: nat -> int): map<string, Proposal> {
    if schedule == [] then map[]
    else
      var before := Inserts(Front(schedule), clock);
      match Last(schedule)
      case Propose(id, tenant) => if id in before then before else before[id := NewProposal(tenant, clock(|schedule| - 1))]
      case _ => before
  }

  /**
   Any schedule of inserts, reads, writes and sweeps comes out as the run of its statements says.
   There is a row for exactly the proposals inserted. Each has at most one winner among approve,
   reject and expire: at most one reviewer is told of success, the row is the inserted one with that
   review and nothing else, and nobody is told of success for a proposal that is pending or expired.
   */
  method Serve(schedule: seq<Step>, clock: nat -> int)
    returns (rows: map<string, Proposal>, answers: seq<Entry<Decision>>, ghost log: seq<Entry<Decision>>)
    ensures rows == Run(schedule, clock).rows && answers == Run(schedule, clock).answers
    ensures rows.Keys == Inserts(schedule, clock).Keys
    ensures forall id :: id in rows ==> Story(Inserts(schedule, clock)[id], rows[id], Trail(log, id))
    ensures forall id :: id in rows ==>
              rows[id].tenant == Inserts(schedule, clock)[id].tenant && rows[id].createdAt == Inserts(schedule, clock)[id].createdAt
    ensures forall id :: id in rows ==> Outcome(rows[id], Trail(answers, id)) && ExpiredInTime(rows[id], Trail(log, id))
    ensures Answered(answers, log, ByReviewer)
  {
    hide Answered, Bulk, Told, ReviewsInFlight, Story, Outcome, ExpiredInTime, Trail, Swept, Reviewed, DueIds;
    NothingAnswered();
    var table := new ProposalTable();
    answers := [];
    for n := 0 to |schedule|
      invariant fresh(table) && table.Valid() && Answered(answers, table.log, ByReviewer)
      invariant Desk(table.rows, table.inFlight, answers) == Run(schedule[..n], clock)
      invariant table.created == Inserts(schedule[..n], clock)
    {
      assert Front(schedule[..n + 1]) == schedule[..n] && Last(schedule[..n + 1]) == schedule[n];
      CreatedKeys(table.created, table.rows, table.log);
      ghost var before := table.log;
      match schedule[n]
      case Propose(id, tenant) =>
        if id !in table.rows {
          table.Insert(id, tenant, clock(n));
        }
      case StartReview(q, review) =>
        if q !in table.inFlight {
          var _ := table.Begin(q, review);
        }
      case EndReview(q) =>
        if q in table.inFlight {
          var review := table.inFlight[q];
          var result := table.Finish(q, clock(n));
          if result.Success? {
            AnsweredAct(answers, before, ByReviewer, Entry(review.id, Decided(review, clock(n))));
            answers := answers + [Entry(review.id, Decided(review, clock(n)))];
          }
        }
      case Sweep =>
        ghost var due := DueIds(table.rows, clock(n));
        var _ := table.ExpireProposals(clock(n));
        ghost var more :| Bulk(more, due, TimedOut(clock(n))) && table.log == before + more;
        AnsweredBulk(answers, before, ByReviewer, more, due, TimedOut(clock(n)));
    }
    assert schedule[..|schedule|] == schedule;
    rows, log := table.rows, table.log;
    CreatedKeys(table.created, rows, log);
    forall id | id in rows
      ensures Story(table.created[id], rows[id], Trail(log, id))
      ensures rows[id].tenant == table.created[id].tenant && rows[id].createdAt == table.created[id].createdAt
      ensures Outcome(rows[id], Trail(answers, id)) && ExpiredInTime(rows[id], Trail(log, id))
    {
      TrailEnds(table.created, rows, answers, log, id);
    }
  }

  lemma CreatedKeys(created: map<string, Proposal>, rows: map<string, Proposal>, log: seq<Entry<Decision>>)
    requires Told(Story, created, rows, log)
    ensures created.Keys == rows.Keys
  {
  }

  lemma TrailEnds(created: map<string, Proposal>, rows: map<string, Proposal>, answers: seq<Entry<Decision>>,
                  log: seq<Entry<Decision>>, id: string)
    requires Told(Story, created, rows, log) && Answered(answers, log, ByReviewer) && id in rows
    ensures Story(created[id], rows[id], Trail(log, id))
    ensures rows[id].tenant == created[id].tenant && rows[id].createdAt == created[id].createdAt
    ensures Outcome(rows[id], Trail(answers, id)) && ExpiredInTime(rows[id], Trail(log, id))
  {
    hide Outcome, Trail, Kept, ExpiredInTime;
    StoryEnds(created[id], rows[id], Trail(log, id));
  }
}
