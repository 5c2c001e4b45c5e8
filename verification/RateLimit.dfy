/**
 The fixed-window rate limiter. A request increments the row of its key and aligned window; it is
 allowed if the new count is within the limit.
 */
module RateLimit {
  import opened Wrappers
  import opened Arithmetic

  datatype Result = Result(allowed: bool, count: nat, retryAfter: int)

  datatype Bucket = Bucket(key: string, windowStart: int)

  function WindowStart(now: nat, windowSec: nat): nat
    requires windowSec > 0
  {
    now - now % windowSec
  }

  function CountOf(rows: map<Bucket, nat>, b: Bucket): nat {
    if b in rows then rows[b] else 0
  }

  /** What the database did: the upsert worked, or an error was seen with the row written or not. */
  datatype Database = Works | FailsBefore | FailsAfter

  class Store {
    var rows: map<Bucket, nat>

    constructor ()
      ensures rows == map[]
    {
      rows := map[];
    }

    /** A successful answer's retry time lands on the next window boundary; an error is a refusal. */
    method IncrementBucket(key: string, windowSec: nat, limit: nat, nowSec: nat, db: Database) returns (r: Result)
      requires windowSec > 0
      modifies this
      ensures var b := Bucket(key, WindowStart(nowSec, windowSec));
              && rows == (if db == FailsBefore then old(rows) else old(rows)[b := CountOf(old(rows), b) + 1])
              && r.allowed == (db == Works && rows[b] <= limit)
              && (db == Works ==> r.count == rows[b])
      ensures db == Works ==> 1 <= r.retryAfter <= windowSec && (nowSec + r.retryAfter) % windowSec == 0
      ensures db != Works ==> r == Result(false, limit + 1, windowSec)
    {
      var windowStart := nowSec - nowSec % windowSec;
      var b := Bucket(key, windowStart);
      if db == FailsBefore {
        return Result(false, limit + 1, windowSec);
      }
      var count := if b in rows then rows[b] + 1 else 1;
      rows := rows[b := count];
      if db == FailsAfter {
        return Result(false, limit + 1, windowSec);
      }
      var left := windowSec - (nowSec - windowStart);
      NextBoundary(nowSec, windowSec);
      return Result(count <= limit, count, if left > 1 then left else 1);
    }
  }

  lemma NextBoundary(now: nat, w: nat)
    requires w > 0
    ensures 1 <= w - now % w <= w && (now + (w - now % w)) % w == 0
  {
    var q := now / w;
    assert now == w * q + now % w;
    MultipleHasNoRemainder(w, q + 1);
    assert now + (w - now % w) == w * (q + 1);
  }

  // ---------------------------------------------------------------------
  // Traces
  // ---------------------------------------------------------------------

  datatype Call = Call(key: string, now: nat, db: Database)

  datatype Limits = Limits(windowSec: nat, limit: nat)

  function BucketOf(limits: Limits, c: Call): Bucket
    requires limits.windowSec > 0
  {
    Bucket(c.key, WindowStart(c.now, limits.windowSec))
  }

  function Rows(limits: Limits, calls: seq<Call>): map<Bucket, nat>
    requires limits.windowSec > 0
  {
    if calls == [] then map[]
    else
      var before, c := Rows(limits, Front(calls)), Last(calls);
      if c.db == FailsBefore then before
      else before[BucketOf(limits, c) := CountOf(before, BucketOf(limits, c)) + 1]
  }

  /** Whether the last call of the trace is allowed. */
  predicate Allowed(limits: Limits, calls: seq<Call>)
    requires limits.windowSec > 0
  {
    calls != [] && Last(calls).db == Works && CountOf(Rows(limits, calls), BucketOf(limits, Last(calls))) <= limits.limit
  }

  /** How many calls with this key in this window reached the database. */
  function Recorded(limits: Limits, calls: seq<Call>, key: string, start: int): nat
    requires limits.windowSec > 0
  {
    if calls == [] then 0
    else
      var c := Last(calls);
      Recorded(limits, Front(calls), key, start)
      + (if c.db != FailsBefore && c.key == key && start <= c.now < start + limits.windowSec then 1 else 0)
  }

  lemma {:induction false} RowsCountRecorded(limits: Limits, calls: seq<Call>, key: string, start: nat)
    requires limits.windowSec > 0 && start % limits.windowSec == 0
    ensures CountOf(Rows(limits, calls), Bucket(key, start)) == Recorded(limits, calls, key, start)
    decreases |calls|
  {
    hide WindowStart;
    if calls != [] {
      RowsCountRecorded(limits, Front(calls), key, start);
      InWindow(Last(calls).now, start, limits.windowSec);
    }
  }

  /** A request is allowed exactly when the database works and fewer than `limit` were recorded before it in its window. */
  lemma AllowedExactlyWhen(limits: Limits, calls: seq<Call>)
    requires limits.windowSec > 0 && calls != []
    ensures var c := Last(calls);
            Allowed(limits, calls)
            <==> c.db == Works && Recorded(limits, Front(calls), c.key, c.now - c.now % limits.windowSec) < limits.limit
  {
    var c, start := Last(calls), WindowStart(Last(calls).now, limits.windowSec);
    StartIsAligned(c.now, limits.windowSec);
    RowsCountRecorded(limits, Front(calls), c.key, start);
  }

  /** How many calls with this key and a time in [lo, hi) were allowed. */
  function AllowedIn(limits: Limits, calls: seq<Call>, key: string, lo: int, hi: int): nat
    requires limits.windowSec > 0
  {
    if calls == [] then 0
    else
      AllowedIn(limits, Front(calls), key, lo, hi)
      + (if Allowed(limits, calls) && Last(calls).key == key && lo <= Last(calls).now < hi then 1 else 0)
  }

  lemma {:induction false} AllowedInSplits(limits: Limits, calls: seq<Call>, key: string, lo: int, mid: int, hi: int)
    requires limits.windowSec > 0 && lo <= mid <= hi
    ensures AllowedIn(limits, calls, key, lo, hi)
         == AllowedIn(limits, calls, key, lo, mid) + AllowedIn(limits, calls, key, mid, hi)
    decreases |calls|
  {
    hide Allowed;
    if calls != [] {
      AllowedInSplits(limits, Front(calls), key, lo, mid, hi);
    }
  }

  lemma {:induction false} AllowedInGrows(limits: Limits, calls: seq<Call>, key: string, lo: int, hi: int, lo': int, hi': int)
    requires limits.windowSec > 0 && lo' <= lo && hi <= hi'
    ensures AllowedIn(limits, calls, key, lo, hi) <= AllowedIn(limits, calls, key, lo', hi')
    decreases |calls|
  {
    hide Allowed;
    if calls != [] {
      AllowedInGrows(limits, Front(calls), key, lo, hi, lo', hi');
    }
  }

  lemma InWindow(now: nat, start: nat, w: nat)
    requires w > 0 && start % w == 0
    ensures start <= now < start + w <==> WindowStart(now, w) == start
  {
    var p, q := start / w, now / w;
    assert start == w * p && now == w * q + now % w && WindowStart(now, w) == w * q;
    MultiplesApart(w, p, q);
    MultiplesApart(w, q, p);
  }

  lemma {:induction false} WindowIsLimited(limits: Limits, calls: seq<Call>, key: string, start: nat)
    requires limits.windowSec > 0 && start % limits.windowSec == 0
    ensures AllowedIn(limits, calls, key, start, start + limits.windowSec) <= limits.limit
    ensures AllowedIn(limits, calls, key, start, start + limits.windowSec)
         <= CountOf(Rows(limits, calls), Bucket(key, start))
    decreases |calls|
  {
    hide WindowStart;
    if calls != [] {
      WindowIsLimited(limits, Front(calls), key, start);
      InWindow(Last(calls).now, start, limits.windowSec);
    }
  }

  /** Per key, at most `limit` requests are allowed in each aligned window, whatever the arrival order. */
  lemma AlignedWindowLimit(limits: Limits, calls: seq<Call>, key: string, now: nat)
    requires limits.windowSec > 0
    ensures var start := WindowStart(now, limits.windowSec);
            AllowedIn(limits, calls, key, start, start + limits.windowSec) <= limits.limit
  {
    NextBoundary(now, limits.windowSec);
    StartIsAligned(now, limits.windowSec);
    WindowIsLimited(limits, calls, key, WindowStart(now, limits.windowSec));
  }

  lemma StartIsAligned(now: nat, w: nat)
    requires w > 0
    ensures WindowStart(now, w) % w == 0 && (WindowStart(now, w) + w) % w == 0
    ensures WindowStart(now, w) <= now < WindowStart(now, w) + w
  {
    var q := now / w;
    assert WindowStart(now, w) == w * q;
    MultipleHasNoRemainder(w, q);
    MultipleHasNoRemainder(w, q + 1);
    assert w * (q + 1) == w * q + w;
  }

  /** In any interval of one window's length, aligned or not, at most twice the limit is allowed. */
  lemma AnyIntervalLimit(limits: Limits, calls: seq<Call>, key: string, from: nat)
    requires limits.windowSec > 0
    ensures AllowedIn(limits, calls, key, from, from + limits.windowSec) <= 2 * limits.limit
  {
    hide AllowedIn;
    var w := limits.windowSec;
    var start := WindowStart(from, w);
    StartIsAligned(from, w);
    WindowIsLimited(limits, calls, key, start);
    WindowIsLimited(limits, calls, key, start + w);
    AllowedInSplits(limits, calls, key, start, start + w, start + w + w);
    AllowedInGrows(limits, calls, key, from, from + w, start, start + w + w);
  }
}
