/**
 Updates of stored policy packs under optimistic concurrency. An update is two database statements,
 a read and a conditional write, and the statements of different requests interleave freely. Updates
 that succeed lose nothing: the row is the inserted one with their patches applied in order, and the
 n-th of them is the one that named version n.
 */
module PolicyUpdates {
  import opened Wrappers
  import opened Trails

  datatype Policy = Policy(
    tenant: string,
    version: nat,
    name: string,
    description: Option<string>,
    agentRole: Option<string>,
    environment: Option<string>,
    content: string,
    isActive: bool)

  /** The fields of a request; a field that is absent stays as it is. */
  datatype Patch = Patch(
    name: Option<string>,
    description: Option<Option<string>>,
    agentRole: Option<Option<string>>,
    environment: Option<Option<string>>,
    content: Option<string>,
    isActive: Option<bool>)

  datatype Update = Update(id: string, tenant: string, version: nat, patch: Patch)

  /** A request between its read and its write; it remembers the version it read. */
  datatype Ticket = Ticket(update: Update, existingVersion: nat)

  datatype Error = NotFound | Conflict | BadRequest

  function OrElse<T>(o: Option<T>, otherwise: T): T {
    if o.Some? then o.value else otherwise
  }

  function Patched(row: Policy, p: Patch): Policy {
    row.(name := OrElse(p.name, row.name),
         description := OrElse(p.description, row.description),
         agentRole := OrElse(p.agentRole, row.agentRole),
         environment := OrElse(p.environment, row.environment),
         content := OrElse(p.content, row.content),
         isActive := OrElse(p.isActive, row.isActive))
  }

  /** The row after all these updates, one after the other; what versions they name plays no part. */
  function Replay(row: Policy, updates: seq<Update>): Policy {
    if updates == [] then row
    else
      var before := Replay(row, Front(updates));
      Patched(before, Last(updates).patch).(version := before.version + 1)
  }

  lemma {:induction false} ReplayKeeps(row: Policy, updates: seq<Update>)
    ensures Replay(row, updates).version == row.version + |updates|
    ensures Replay(row, updates).tenant == row.tenant
  {
    if updates != [] {
      ReplayKeeps(row, Front(updates));
    }
  }

  /** The value last written, or the one there was. */
  function LastSet<T>(initial: T, writes: seq<Option<T>>): T {
    if writes == [] then initial
    else if Last(writes).Some? then Last(writes).value
    else LastSet(initial, Front(writes))
  }

  function Column<T>(updates: seq<Update>, f: Patch -> Option<T>): (column: seq<Option<T>>)
    ensures |column| == |updates| && forall i :: 0 <= i < |updates| ==> column[i] == f(updates[i].patch)
  {
    seq(|updates|, i requires 0 <= i < |updates| => f(updates[i].patch))
  }

  lemma LastSetStep<T>(initial: T, updates: seq<Update>, f: Patch -> Option<T>)
    requires updates != []
    ensures LastSet(initial, Column(updates, f)) == OrElse(f(Last(updates).patch), LastSet(initial, Column(Front(updates), f)))
  {
    assert Front(Column(updates, f)) == Column(Front(updates), f);
  }

  /** No update's write is lost: every field holds what the latest update that sets it gave it. */
  lemma {:induction false} EveryWriteSurvives(row: Policy, updates: seq<Update>)
    ensures Replay(row, updates).name == LastSet(row.name, Column(updates, (p: Patch) => p.name))
    ensures Replay(row, updates).description == LastSet(row.description, Column(updates, (p: Patch) => p.description))
    ensures Replay(row, updates).agentRole == LastSet(row.agentRole, Column(updates, (p: Patch) => p.agentRole))
    ensures Replay(row, updates).environment == LastSet(row.environment, Column(updates, (p: Patch) => p.environment))
    ensures Replay(row, updates).content == LastSet(row.content, Column(updates, (p: Patch) => p.content))
    ensures Replay(row, updates).isActive == LastSet(row.isActive, Column(updates, (p: Patch) => p.isActive))
  {
    hide LastSet, Column;
    if updates == [] {
      NothingSet(row);
    } else {
      EveryWriteSurvives(row, Front(updates));
      LastSetStep(row.name, updates, (p: Patch) => p.name);
      LastSetStep(row.description, updates, (p: Patch) => p.description);
      LastSetStep(row.agentRole, updates, (p: Patch) => p.agentRole);
      LastSetStep(row.environment, updates, (p: Patch) => p.environment);
      LastSetStep(row.content, updates, (p: Patch) => p.content);
      LastSetStep(row.isActive, updates, (p: Patch) => p.isActive);
    }
  }

  lemma NothingSet(row: Policy)
    ensures forall f: Patch -> Option<string> :: LastSet(row.name, Column([], f)) == row.name && LastSet(row.content, Column([], f)) == row.content
    ensures forall f: Patch -> Option<Option<string>> ::
              && LastSet(row.description, Column([], f)) == row.description
              && LastSet(row.agentRole, Column([], f)) == row.agentRole
              && LastSet(row.environment, Column([], f)) == row.environment
    ensures forall f: Patch -> Option<bool> :: LastSet(row.isActive, Column([], f)) == row.isActive
  {
  }

  /** The row is its insertion followed by its accepted updates, the n-th of which named version n. */
  ghost predicate Lossless(created: Policy, row: Policy, updates: seq<Update>) {
    && created.version == 1
    && row == Replay(created, updates)
    && forall n :: 0 <= n < |updates| ==> updates[n].version == n + 1 && updates[n].tenant == created.tenant
  }

  lemma LosslessStep(created: Policy, row: Policy, updates: seq<Update>, u: Update)
    requires Lossless(created, row, updates) && u.version == row.version && u.tenant == row.tenant
    ensures Lossless(created, Patched(row, u.patch).(version := row.version + 1), updates + [u])
  {
    assert Front(updates + [u]) == updates && Last(updates + [u]) == u;
    ReplayKeeps(created, updates);
  }

  type Commits = seq<Entry<Update>>

  ghost predicate RowsMatch(valid: string -> bool, rows: map<string, Policy>, created: map<string, Policy>, commits: Commits) {
    && Told(Lossless, created, rows, commits)
    && (forall id :: id in rows ==> valid(rows[id].content))
  }

  /** What a request knows between its statements: the row had the version it names when `at` updates had succeeded. */
  ghost predicate TicketMatches(valid: string -> bool, rows: map<string, Policy>, commits: Commits, t: Ticket, at: nat) {
    && t.existingVersion >= 1 && Read(commits, Reading(at, t.update.id, t.existingVersion - 1))
    && t.update.id in rows
    && rows[t.update.id].tenant == t.update.tenant
    && t.existingVersion == t.update.version
    && (t.update.patch.content.Some? ==> valid(t.update.patch.content.value))
  }

  ghost predicate TicketsMatch(valid: string -> bool, rows: map<string, Policy>, commits: Commits,
                               inFlight: map<nat, Ticket>, readAt: map<nat, nat>)
  {
    && readAt.Keys == inFlight.Keys
    && forall q :: q in inFlight ==> TicketMatches(valid, rows, commits, inFlight[q], readAt[q])
  }

  lemma RowVersion(valid: string -> bool, rows: map<string, Policy>, created: map<string, Policy>, commits: Commits, id: string)
    requires RowsMatch(valid, rows, created, commits) && id in rows
    ensures rows[id].version == |Trail(commits, id)| + 1 && rows[id].tenant == created[id].tenant
  {
    ReplayKeeps(created[id], Trail(commits, id));
  }

  lemma InsertKeeps(valid: string -> bool, rows: map<string, Policy>, created: map<string, Policy>, commits: Commits,
                    id: string, row: Policy)
    requires RowsMatch(valid, rows, created, commits) && id !in rows && row.version == 1 && valid(row.content)
    ensures RowsMatch(valid, rows[id := row], created[id := row], commits)
  {
    ToldInsert(Lossless, created, rows, commits, id, row);
    hide Told, Lossless;
  }

  /** A committed update keeps the rows lossless. */
  lemma CommitKeeps(valid: string -> bool, rows: map<string, Policy>, created: map<string, Policy>, commits: Commits,
                    u: Update, row: Policy)
    requires RowsMatch(valid, rows, created, commits) && u.id in rows
    requires rows[u.id].version == u.version && rows[u.id].tenant == u.tenant
    requires u.patch.content.Some? ==> valid(u.patch.content.value)
    requires row == Patched(rows[u.id], u.patch).(version := u.version + 1)
    ensures RowsMatch(valid, rows[u.id := row], created, commits + [Entry(u.id, u)])
  {
    hide Lossless, Trail, Replay;
    assert valid(row.content);
    LosslessStep(created[u.id], rows[u.id], Trail(commits, u.id), u);
    hide Patched;
    ToldAct(Lossless, created, rows, commits, u.id, row, u);
  }

  /** Requests in flight are not disturbed by inserts and by the successes of others. */
  lemma TicketsKept(valid: string -> bool, rows: map<string, Policy>, commits: Commits,
                    inFlight: map<nat, Ticket>, readAt: map<nat, nat>, rows': map<string, Policy>, more: Commits)
    requires TicketsMatch(valid, rows, commits, inFlight, readAt)
    requires forall id :: id in rows ==> id in rows' && rows'[id].tenant == rows[id].tenant
    ensures TicketsMatch(valid, rows', commits + more, inFlight, readAt)
  {
    forall q | q in inFlight
      ensures TicketMatches(valid, rows', commits + more, inFlight[q], readAt[q])
    {
      var t := inFlight[q];
      assert TicketMatches(valid, rows, commits, t, readAt[q]);
      ReadStays(commits, more, Reading(readAt[q], t.update.id, t.existingVersion - 1));
    }
  }

  lemma TicketKnown(valid: string -> bool, rows: map<string, Policy>, commits: Commits,
                    inFlight: map<nat, Ticket>, readAt: map<nat, nat>, q: nat)
    requires TicketsMatch(valid, rows, commits, inFlight, readAt) && q in inFlight
    ensures q in readAt && TicketMatches(valid, rows, commits, inFlight[q], readAt[q])
    ensures var Ticket(u, existingVersion) := inFlight[q];
            && existingVersion == u.version && u.id in rows && rows[u.id].tenant == u.tenant
            && (u.patch.content.Some? ==> valid(u.patch.content.value))
  {
  }

  lemma TicketDropped(valid: string -> bool, rows: map<string, Policy>, commits: Commits,
                      inFlight: map<nat, Ticket>, readAt: map<nat, nat>, q: nat)
    requires TicketsMatch(valid, rows, commits, inFlight, readAt)
    ensures TicketsMatch(valid, rows, commits, inFlight - {q}, readAt - {q})
  {
    hide TicketMatches;
  }

  lemma PatchedTenant(row: Policy, p: Patch)
    ensures Patched(row, p).tenant == row.tenant
  {
  }

  /** Since a point of the log, an update of the same policy that named the same version has succeeded. */
  ghost predicate Beaten(commits: Commits, from: nat, u: Update) {
    exists k :: from <= k < |commits| && commits[k].id == u.id && commits[k].act.version == u.version
  }

  /** A request whose version is gone lost to one that named the same version after its read. */
  lemma LostRace(valid: string -> bool, rows: map<string, Policy>, created: map<string, Policy>, commits: Commits, t: Ticket, at: nat)
    requires RowsMatch(valid, rows, created, commits) && TicketMatches(valid, rows, commits, t, at)
    requires rows[t.update.id].version != t.update.version
    ensures Beaten(commits, at, t.update)
  {
    var u := t.update;
    RowVersion(valid, rows, created, commits, u.id);
    assert forall n :: 0 <= n < |Trail(commits, u.id)| ==> Trail(commits, u.id)[n].version == n + 1;
    hide RowsMatch, Lossless, Trail;
    TrailGrows(commits, at, u.id);
    LoggedSince(commits, at, u.id, u.version - 1);
  }

  class PolicyTable {
    /** The verdict of the policy schema. */
    const validContent: string -> bool
    var rows: map<string, Policy>
    /** The requests that have read and not yet written. */
    var inFlight: map<nat, Ticket>

    /** The rows as they were inserted. */
    ghost var created: map<string, Policy>
    /** The updates that succeeded, in order. */
    ghost var commits: Commits
    /** How many updates had succeeded when a request in flight did its read. */
    ghost var readAt: map<nat, nat>

    constructor (validContent: string -> bool)
      ensures Valid() && rows == map[] && inFlight == map[] && created == map[] && commits == []
      ensures this.validContent == validContent
    {
      this.validContent := validContent;
      rows, inFlight := map[], map[];
      created, commits, readAt := map[], [], map[];
    }

    ghost predicate Valid()
      reads this
    {
      && RowsMatch(validContent, rows, created, commits)
      && TicketsMatch(validContent, rows, commits, inFlight, readAt)
    }

    /** Inserts a row at version 1 under an id the database has not used. */
    method Create(id: string, row: Policy) returns (r: Result<Policy, Error>)
      requires Valid() && id !in rows
      modifies this
      ensures Valid() && inFlight == old(inFlight) && commits == old(commits)
      ensures r == if validContent(row.content) then Success(row.(version := 1)) else Failure(BadRequest)
      ensures rows == (if r.Success? then old(rows)[id := r.value] else old(rows))
      ensures created == (if r.Success? then old(created)[id := r.value] else old(created))
    {
      hide RowsMatch, TicketsMatch;
      if !validContent(row.content) {
        return Failure(BadRequest);
      }
      var inserted := row.(version := 1);
      InsertKeeps(validContent, rows, created, commits, id, inserted);
      TicketsKept(validContent, rows, commits, inFlight, readAt, rows[id := inserted], []);
      assert commits + [] == commits;
      rows := rows[id := inserted];
      created := created[id := inserted];
      return Success(inserted);
    }

    /** The first half of an update: read the row and check it against the request. */
    method Begin(q: nat, u: Update) returns (r: Result<nat, Error>)
      requires Valid() && q !in inFlight
      modifies this`inFlight, this`readAt
      ensures Valid()
      ensures r == if u.id !in rows || rows[u.id].tenant != u.tenant then Failure(NotFound)
                   else if rows[u.id].version != u.version then Failure(Conflict)
                   else if u.patch.content.Some? && !validContent(u.patch.content.value) then Failure(BadRequest)
                   else Success(u.version)
      ensures inFlight == (if r.Success? then old(inFlight)[q := Ticket(u, r.value)] else old(inFlight))
      ensures readAt == (if r.Success? then old(readAt)[q := |commits|] else old(readAt))
    {
      hide RowsMatch;
      if u.id !in rows || rows[u.id].tenant != u.tenant {
        return Failure(NotFound);
      }
      var existing := rows[u.id].version;
      if existing != u.version {
        return Failure(Conflict);
      }
      if u.patch.content.Some? && !validContent(u.patch.content.value) {
        return Failure(BadRequest);
      }
      RowVersion(validContent, rows, created, commits, u.id);
      assert commits[..|commits|] == commits;
      assert TicketMatches(validContent, rows, commits, Ticket(u, existing), |commits|);
      hide TicketMatches;
      inFlight := inFlight[q := Ticket(u, existing)];
      readAt := readAt[q := |commits|];
      return Success(existing);
    }

    /**
     The second half: write if the row still has the version the request named. The write raises the
     version by exactly one. A refused request lost to one that named the same version of the same
     policy and succeeded after this request's read.
     */
    method Finish(q: nat) returns (r: Result<Policy, Error>)
      requires Valid() && q in inFlight
      modifies this
      ensures Valid() && inFlight == old(inFlight) - {q} && created == old(created)
      ensures old(inFlight)[q].update.id in old(rows)
      ensures var u := old(inFlight)[q].update;
              var row := old(rows)[u.id];
              && r == (if row.version == u.version then Success(Patched(row, u.patch).(version := row.version + 1))
                       else Failure(Conflict))
              && rows == (if r.Success? then old(rows)[u.id := r.value] else old(rows))
              && commits == (if r.Success? then old(commits) + [Entry(u.id, u)] else old(commits))
      ensures r.Failure? ==> q in old(readAt) && Beaten(commits, old(readAt)[q], old(inFlight)[q].update)
    {
      hide RowsMatch, TicketsMatch, TicketMatches, Trail, Patched, Beaten;
      TicketKnown(validContent, rows, commits, inFlight, readAt, q);
      var Ticket(u, existingVersion) := inFlight[q];
      var row := rows[u.id];
      if row.tenant == u.tenant && row.version == u.version {
        var updated := Patched(row, u.patch).(version := existingVersion + 1);
        CommitKeeps(validContent, rows, created, commits, u, updated);
        PatchedTenant(row, u.patch);
        TicketsKept(validContent, rows, commits, inFlight, readAt, rows[u.id := updated], [Entry(u.id, u)]);
        rows := rows[u.id := updated];
        commits := commits + [Entry(u.id, u)];
        r := Success(updated);
      } else {
        LostRace(validContent, rows, created, commits, inFlight[q], readAt[q]);
        r := Failure(Conflict);
      }
      TicketDropped(validContent, rows, commits, inFlight, readAt, q);
      inFlight, readAt := inFlight - {q}, readAt - {q};
    }
  }

  /** One database statement of some request; a statement that cannot come now does nothing. */
  datatype Step = Insert(id: string, row: Policy) | Select(q: nat, update: Update) | Write(q: nat)

  /** The table, the requests between their statements, and the updates that succeeded so far. */
  datatype Desk = Desk(rows: map<string, Policy>, inFlight: map<nat, Ticket>, won: seq<Entry<Update>>)

  /** The read lets the request go on to its write. */
  predicate Admits(valid: string -> bool, rows: map<string, Policy>, u: Update) {
    && u.id in rows && rows[u.id].tenant == u.tenant && rows[u.id].version == u.version
    && (u.patch.content.Some? ==> valid(u.patch.content.value))
  }

  /** What one statement does to everything. */
  function Next(valid: string -> bool, s: Desk, step: Step): Desk {
    match step
    case Insert(id, row) =>
      if id !in s.rows && valid(row.content) then s.(rows := s.rows[id := row.(version := 1)]) else s
    case Select(q, u) =>
      if q !in s.inFlight && Admits(valid, s.rows, u) then s.(inFlight := s.inFlight[q := Ticket(u, u.version)]) else s
    case Write(q) =>
      if q !in s.inFlight then s
      else
        var u := s.inFlight[q].update;
        var waiting := s.inFlight - {q};
        if u.id in s.rows && s.rows[u.id].version == u.version then
          var row := s.rows[u.id];
          Desk(s.rows[u.id := Patched(row, u.patch).(version := row.version + 1)], waiting, s.won + [Entry(u.id, u)])
        else s.(inFlight := waiting)
  }

  function Run(valid: string -> bool, schedule: seq<Step>): Desk {
    if schedule == [] then Desk(map[], map[], []) else Next(valid, Run(valid, Front(schedule)), Last(schedule))
  }

  /** The rows as inserted: the first valid insert of each id. */
  function Inserts(valid: string -> bool, schedule: seq<Step>): map<string, Policy> {
    if schedule == [] then map[]
    else
      var before := Inserts(valid, Front(schedule));
      match Last(schedule)
      case Insert(id, row) => if id !in before && valid(row.content) then before[id := row.(version := 1)] else before
      case _ => before
  }

  /**
   Any schedule of inserts, reads and writes over a fresh table comes out as the run of its statements
   says. There is a row for exactly the policies the schedule validly inserts; each row is the
   inserted one with exactly its successful updates applied; and the n-th success on a policy named
   version n, so that no two of them named the same version.
   */
  method Serve(validContent: string -> bool, schedule: seq<Step>)
    returns (rows: map<string, Policy>, won: seq<Entry<Update>>)
    ensures rows == Run(validContent, schedule).rows && won == Run(validContent, schedule).won
    ensures rows.Keys == Inserts(validContent, schedule).Keys
    ensures forall id :: id in rows ==> Lossless(Inserts(validContent, schedule)[id], rows[id], Trail(won, id))
    ensures forall id :: id in rows ==> validContent(rows[id].content)
    ensures forall i, j :: 0 <= i < j < |won| && won[i].id == won[j].id ==> won[i].act.version < won[j].act.version
  {
    hide Lossless, RowsMatch, TicketsMatch, Trail;
    var table := new PolicyTable(validContent);
    won := [];
    for n := 0 to |schedule|
      invariant fresh(table) && table.Valid() && table.validContent == validContent && table.commits == won
      invariant Desk(table.rows, table.inFlight, won) == Run(validContent, schedule[..n])
      invariant table.created == Inserts(validContent, schedule[..n])
    {
      assert Front(schedule[..n + 1]) == schedule[..n] && Last(schedule[..n + 1]) == schedule[n];
      CreatedKeys(validContent, table.rows, table.created, won);
      match schedule[n]
      case Insert(id, row) =>
        if id !in table.rows {
          var _ := table.Create(id, row);
        }
      case Select(q, u) =>
        if q !in table.inFlight {
          var _ := table.Begin(q, u);
        }
      case Write(q) =>
        if q in table.inFlight {
          var u := table.inFlight[q].update;
          var r := table.Finish(q);
          if r.Success? {
            won := won + [Entry(u.id, u)];
          }
        }
    }
    assert schedule[..|schedule|] == schedule;
    rows := table.rows;
    RowsMatchMeans(validContent, rows, table.created, won);
    forall i, j | 0 <= i < j < |won| && won[i].id == won[j].id
      ensures won[i].act.version < won[j].act.version
    {
      VersionsRise(validContent, rows, table.created, won, i, j);
    }
  }

  lemma CreatedKeys(valid: string -> bool, rows: map<string, Policy>, created: map<string, Policy>, commits: Commits)
    requires RowsMatch(valid, rows, created, commits)
    ensures rows.Keys == created.Keys
  {
  }

  lemma RowsMatchMeans(valid: string -> bool, rows: map<string, Policy>, created: map<string, Policy>, commits: Commits)
    requires RowsMatch(valid, rows, created, commits)
    ensures rows.Keys == created.Keys
    ensures forall id :: id in rows ==> Lossless(created[id], rows[id], Trail(commits, id)) && valid(rows[id].content)
  {
    hide Lossless, Trail;
  }

  lemma VersionsRise(valid: string -> bool, rows: map<string, Policy>, created: map<string, Policy>, commits: Commits, i: nat, j: nat)
    requires RowsMatch(valid, rows, created, commits)
    requires i < j < |commits| && commits[i].id == commits[j].id
    ensures commits[i].act.version < commits[j].act.version
  {
    var id := commits[i].id;
    LaterNamesLater(commits, i, j);
    assert id in rows;
    hide Trail, Replay;
  }

  /** Two entries of one row are at different places of its trail. */
  lemma LaterNamesLater(won: seq<Entry<Update>>, i: nat, j: nat)
    requires i < j < |won| && won[i].id == won[j].id
    ensures exists a, b :: 0 <= a < b < |Trail(won, won[i].id)|
                        && Trail(won, won[i].id)[a] == won[i].act && Trail(won, won[i].id)[b] == won[j].act
  {
    var id := won[i].id;
    var a, b := |Trail(won[..i], id)|, |Trail(won[..j], id)|;
    assert won == won[..j] + won[j..] && won[j..][0] == won[j];
    TrailPlace(won, i);
    TrailPlace(won, j);
    TrailPlace(won[..j], i);
    assert won[..j][..i] == won[..i];
  }

  lemma TrailPlace(won: seq<Entry<Update>>, i: nat)
    requires i < |won|
    ensures |Trail(won[..i], won[i].id)| < |Trail(won, won[i].id)|
    ensures Trail(won, won[i].id)[|Trail(won[..i], won[i].id)|] == won[i].act
  {
    var id := won[i].id;
    assert won == (won[..i] + [won[i]]) + won[i + 1..];
    TrailConcat(won[..i] + [won[i]], won[i + 1..], id);
    TrailAppend(won[..i], won[i], id);
  }
}
