/**
 A log of accepted changes to the rows of a table, and the trail of one row in it.
 */
module Trails {
  import opened Wrappers

  datatype Entry<A> = Entry(id: string, act: A)

  /** The changes made to one row, oldest first. */
  function Trail<A>(log: seq<Entry<A>>, id: string): seq<A> {
    if log == [] then []
    else Trail(Front(log), id) + (if Last(log).id == id then [Last(log).act] else [])
  }

  lemma TrailAppend<A>(log: seq<Entry<A>>, e: Entry<A>, id: string)
    ensures Trail(log + [e], id) == Trail(log, id) + (if e.id == id then [e.act] else [])
  {
    assert Front(log + [e]) == log && Last(log + [e]) == e;
  }

  lemma {:induction false} TrailConcat<A>(a: seq<Entry<A>>, b: seq<Entry<A>>, id: string)
    ensures Trail(a + b, id) == Trail(a, id) + Trail(b, id)
    decreases |b|
  {
    if b == [] {
      assert a + b == a;
    } else {
      TrailConcat(a, Front(b), id);
      assert Front(a + b) == a + Front(b) && Last(a + b) == Last(b);
    }
  }

  /** A change that is in the trail now and was not at an earlier point was logged after that point. */
  lemma {:induction false} LoggedSince<A>(log: seq<Entry<A>>, from: nat, id: string, n: nat)
    requires from <= |log| && |Trail(log[..from], id)| <= n < |Trail(log, id)|
    ensures exists k :: from <= k < |log| && log[k] == Entry(id, Trail(log, id)[n]) && |Trail(log[..k], id)| == n
  {
    assert log[..|log|] == log;
    if n < |Trail(Front(log), id)| {
      assert Front(log)[..from] == log[..from];
      LoggedSince(Front(log), from, id, n);
      var k :| from <= k < |log| - 1 && Front(log)[k] == Entry(id, Trail(Front(log), id)[n]) && |Trail(Front(log)[..k], id)| == n;
      assert Front(log)[..k] == log[..k];
    } else {
      assert log[..|log| - 1] == Front(log);
    }
  }

  lemma TrailGrows<A>(log: seq<Entry<A>>, from: nat, id: string)
    requires from <= |log|
    ensures |Trail(log[..from], id)| <= |Trail(log, id)|
  {
    assert log == log[..from] + log[from..];
    TrailConcat(log[..from], log[from..], id);
  }

  /** The same change to each of a set of rows. */
  ghost predicate Bulk<A>(log: seq<Entry<A>>, ids: set<string>, act: A) {
    forall id :: Trail(log, id) == if id in ids then [act] else []
  }

  lemma {:induction false} BulkExists<A>(ids: set<string>, act: A) returns (log: seq<Entry<A>>)
    ensures Bulk(log, ids, act)
  {
    if ids == {} {
      log := [];
    } else {
      var first :| first in ids;
      var rest := BulkExists(ids - {first}, act);
      log := rest + [Entry(first, act)];
      forall id
        ensures Trail(log, id) == if id in ids then [act] else []
      {
        TrailAppend(rest, Entry(first, act), id);
      }
    }
  }

  /** Every row has the story told by its trail: how it was inserted, how it is now, and what happened. */
  ghost predicate Told<R, A>(story: (R, R, seq<A>) -> bool, created: map<string, R>, rows: map<string, R>, log: seq<Entry<A>>) {
    && created.Keys == rows.Keys
    && (forall id :: id in rows ==> story(created[id], rows[id], Trail(log, id)))
    && (forall id :: id !in rows ==> Trail(log, id) == [])
  }

  lemma ToldInsert<R, A>(story: (R, R, seq<A>) -> bool, created: map<string, R>, rows: map<string, R>, log: seq<Entry<A>>,
                         id: string, row: R)
    requires Told(story, created, rows, log) && id !in rows && story(row, row, [])
    ensures Told(story, created[id := row], rows[id := row], log)
  {
    hide Trail;
  }

  lemma ToldAct<R, A>(story: (R, R, seq<A>) -> bool, created: map<string, R>, rows: map<string, R>, log: seq<Entry<A>>,
                      id: string, row: R, act: A)
    requires Told(story, created, rows, log) && id in rows && story(created[id], row, Trail(log, id) + [act])
    ensures Told(story, created, rows[id := row], log + [Entry(id, act)])
  {
    hide Trail;
    forall other
      ensures Trail(log + [Entry(id, act)], other) == Trail(log, other) + (if id == other then [act] else [])
      ensures id != other ==> Trail(log + [Entry(id, act)], other) == Trail(log, other)
    {
      TrailAppend(log, Entry(id, act), other);
    }
  }

  lemma ToldBulk<R, A>(story: (R, R, seq<A>) -> bool, created: map<string, R>, rows: map<string, R>, log: seq<Entry<A>>,
                       ids: set<string>, after: map<string, R>, act: A, more: seq<Entry<A>>)
    requires Told(story, created, rows, log) && Bulk(more, ids, act) && ids <= rows.Keys == after.Keys
    requires forall id :: id in ids ==> story(created[id], after[id], Trail(log, id) + [act])
    requires forall id :: id in rows && id !in ids ==> after[id] == rows[id]
    ensures Told(story, created, after, log + more)
  {
    hide Trail;
    forall id
      ensures Trail(log + more, id) == Trail(log, id) + (if id in ids then [act] else [])
      ensures id !in ids ==> Trail(log + more, id) == Trail(log, id)
    {
      TrailConcat(log, more, id);
    }
  }

  /** What a request between its two statements knows: the row had so many changes when it was read. */
  datatype Reading = Reading(at: nat, id: string, changes: nat)

  ghost predicate Read<A>(log: seq<Entry<A>>, r: Reading) {
    r.at <= |log| && |Trail(log[..r.at], r.id)| == r.changes
  }

  lemma ReadStays<A>(log: seq<Entry<A>>, more: seq<Entry<A>>, r: Reading)
    requires Read(log, r)
    ensures Read(log + more, r)
  {
    assert (log + more)[..r.at] == log[..r.at];
  }

  /** Someone changed the row after it was read. */
  ghost predicate Overtaken<A>(log: seq<Entry<A>>, r: Reading) {
    exists k :: r.at <= k < |log| && log[k].id == r.id
  }

  lemma OvertakenExactlyWhen<A>(log: seq<Entry<A>>, r: Reading)
    requires Read(log, r)
    ensures Overtaken(log, r) <==> |Trail(log, r.id)| != r.changes
  {
    hide Trail;
    TrailGrows(log, r.at, r.id);
    if |Trail(log, r.id)| != r.changes {
      LoggedSince(log, r.at, r.id, r.changes);
    } else if Overtaken(log, r) {
      var k :| r.at <= k < |log| && log[k].id == r.id;
      assert log[..k + 1] == log[..k] + [log[k]];
      TrailAppend(log[..k], log[k], r.id);
      TrailGrows(log[..k], r.at, r.id);
      assert log[..k][..r.at] == log[..r.at];
      TrailGrows(log, k + 1, r.id);
    }
  }

  /** The changes of one kind. */
  function Kept<A>(acts: seq<A>, keep: A -> bool): seq<A> {
    if acts == [] then [] else Kept(Front(acts), keep) + (if keep(Last(acts)) then [Last(acts)] else [])
  }

  lemma KeptAppend<A>(acts: seq<A>, act: A, keep: A -> bool)
    ensures Kept(acts + [act], keep) == Kept(acts, keep) + (if keep(act) then [act] else [])
  {
    assert Front(acts + [act]) == acts && Last(acts + [act]) == act;
  }

  /** The answers given to callers are the changes of one kind, row by row and in order. */
  ghost predicate Answered<A>(answers: seq<Entry<A>>, log: seq<Entry<A>>, keep: A -> bool) {
    forall id :: Trail(answers, id) == Kept(Trail(log, id), keep)
  }

  lemma AnsweredAct<A>(answers: seq<Entry<A>>, log: seq<Entry<A>>, keep: A -> bool, e: Entry<A>)
    requires Answered(answers, log, keep) && keep(e.act)
    ensures Answered(answers + [e], log + [e], keep)
  {
    hide Trail, Kept;
    forall id
      ensures Trail(answers + [e], id) == Kept(Trail(log + [e], id), keep)
    {
      TrailAppend(answers, e, id);
      TrailAppend(log, e, id);
      KeptAppend(Trail(log, id), e.act, keep);
      assert Trail(log, id) + [] == Trail(log, id);
    }
  }

  lemma AnsweredBulk<A>(answers: seq<Entry<A>>, log: seq<Entry<A>>, keep: A -> bool,
                        more: seq<Entry<A>>, ids: set<string>, act: A)
    requires Answered(answers, log, keep) && Bulk(more, ids, act) && !keep(act)
    ensures Answered(answers, log + more, keep)
  {
    hide Trail, Kept;
    forall id
      ensures Trail(answers, id) == Kept(Trail(log + more, id), keep)
    {
      TrailConcat(log, more, id);
      KeptAppend(Trail(log, id), act, keep);
      assert Trail(log, id) + [] == Trail(log, id);
    }
  }

  lemma {:induction false} KeptShrinks<A>(acts: seq<A>, keep: A -> bool)
    ensures |Kept(acts, keep)| <= |acts|
    ensures (forall i :: 0 <= i < |acts| ==> keep(acts[i])) ==> Kept(acts, keep) == acts
    ensures (forall i :: 0 <= i < |acts| ==> !keep(acts[i])) ==> Kept(acts, keep) == []
  {
    if acts != [] {
      KeptShrinks(Front(acts), keep);
      assert acts == Front(acts) + [Last(acts)];
    }
  }
}
