/**
 NDJSON framing on the client's side. Unlike the server, the client checks the size of its whole
 buffer, which may hold bytes behind the line it is waiting for; so the way the bytes are cut into
 chunks can matter. This module says exactly when it does.
 */
module ClientFraming {
  import opened Framing

  const RECV_CHUNK := 4096

  datatype Received = Response(line: seq<byte>) | Oversized | Closed

  /** The chunks that `recv` can return: not empty, and no longer than was asked for. */
  ghost predicate Chunked(chunks: seq<seq<byte>>) {
    forall i :: 0 <= i < |chunks| ==> 1 <= |chunks[i]| <= RECV_CHUNK
  }

  /** How many bytes have arrived as soon as byte `n` has. */
  function Arrived(buffer: seq<byte>, chunks: seq<seq<byte>>, n: nat): (m: nat)
    requires n < |buffer + Concat(chunks)|
    ensures n < m <= |buffer + Concat(chunks)| && |buffer| <= m
    decreases |chunks|
  {
    if n < |buffer| then |buffer|
    else
      NextChunk(buffer, chunks);
      Arrived(buffer + chunks[0], chunks[1..], n)
  }

  lemma NextChunk(buffer: seq<byte>, chunks: seq<seq<byte>>)
    requires chunks != []
    ensures buffer + Concat(chunks) == (buffer + chunks[0]) + Concat(chunks[1..])
  {
  }

  lemma FirstNewlineIn(buffer: seq<byte>, later: seq<byte>)
    ensures FirstNewline(buffer) < |buffer| ==> FirstNewline(buffer + later) == FirstNewline(buffer)
    ensures FirstNewline(buffer) == |buffer| ==> FirstNewline(buffer + later) >= |buffer|
  {
    hide FirstNewline;
    if FirstNewline(buffer) < |buffer| {
      FirstNewlineUnique(buffer + later, FirstNewline(buffer));
    } else {
      assert forall i :: 0 <= i < |buffer| ==> (buffer + later)[i] == buffer[i];
    }
  }

  class ResponseReader {
    var buffer: seq<byte>
    var chunks: seq<seq<byte>>

    constructor (chunks: seq<seq<byte>>)
      requires Chunked(chunks)
      ensures Valid() && buffer == [] && this.chunks == chunks
    {
      buffer, this.chunks := [], chunks;
    }

    ghost predicate Valid()
      reads this
    {
      Chunked(chunks)
    }

    ghost function Stream(): seq<byte>
      reads this
    {
      buffer + Concat(chunks)
    }

    /**
     One response line. Bytes are never lost. The first line is returned exactly when it was already
     buffered or at most 64 KiB had arrived when its newline did; the peer is found gone exactly when
     no newline ever comes and the limit is not passed.
     */
    method RecvLine() returns (r: Received)
      requires Valid()
      modifies this
      ensures Valid()
      ensures var s, n := old(Stream()), FirstNewline(old(Stream()));
              && (r.Response? <==>
                    n < |s| && (n < |old(buffer)| || Arrived(old(buffer), old(chunks), n) <= MAX_MESSAGE_BYTES))
              && (r.Response? ==> s == r.line + [NEWLINE] + Stream() && r.line == s[..n])
              && (r.Closed? <==> n == |s| && (|s| <= MAX_MESSAGE_BYTES || old(chunks) == []))
              && (!r.Response? ==> s == Stream())
    {
      hide FirstNewline, Concat;
      ghost var s := Stream();
      ghost var n := FirstNewline(s);
      var at := Position(buffer);
      while at == |buffer|
        invariant Valid() && s == Stream() && at == FirstNewline(buffer) <= |buffer|
        invariant |chunks| <= |old(chunks)| && (|chunks| == |old(chunks)| ==> chunks == old(chunks) && buffer == old(buffer))
        invariant |chunks| < |old(chunks)| ==> |buffer| <= MAX_MESSAGE_BYTES && |old(buffer)| <= n
        invariant n < |s| ==> Arrived(buffer, chunks, n) == Arrived(old(buffer), old(chunks), n)
        decreases |chunks|
      {
        FirstNewlineIn(buffer, Concat(chunks));
        if chunks == [] {
          EmptyConcat(buffer);
          return Closed;
        }
        NextChunk(buffer, chunks);
        buffer, chunks := buffer + chunks[0], chunks[1..];
        if |buffer| > MAX_MESSAGE_BYTES {
          return Oversized;
        }
        at := Position(buffer);
      }
      FirstNewlineIn(buffer, Concat(chunks));
      r := Response(buffer[..at]);
      buffer := buffer[at + 1..];
      assert s == r.line + [NEWLINE] + Stream();
    }
  }

  lemma EmptyConcat(buffer: seq<byte>)
    ensures buffer + Concat([]) == buffer
  {
  }

  /** The first line is returned from a fresh connection, however its bytes are cut. */
  ghost predicate AlwaysReturned(s: seq<byte>) {
    && FirstNewline(s) < |s|
    && forall chunks :: Chunked(chunks) && Concat(chunks) == s ==> ReturnedFrom(chunks, s)
  }

  /** What `RecvLine` requires to return the first line. */
  ghost predicate ReturnedFrom(chunks: seq<seq<byte>>, s: seq<byte>)
    requires FirstNewline(s) < |s| && Concat(chunks) == s
  {
    Arrived([], chunks, FirstNewline(s)) <= MAX_MESSAGE_BYTES
  }

  /** At most one chunk arrives together with the newline. */
  lemma {:induction false} ArrivedBound(buffer: seq<byte>, chunks: seq<seq<byte>>, n: nat)
    requires Chunked(chunks) && |buffer| <= n < |buffer + Concat(chunks)|
    ensures Arrived(buffer, chunks, n) <= n + RECV_CHUNK
    decreases |chunks|
  {
    NextChunk(buffer, chunks);
    if n >= |buffer + chunks[0]| {
      ArrivedBound(buffer + chunks[0], chunks[1..], n);
    }
  }

  /** The stream cut into single bytes. */
  function Singles(s: seq<byte>): (chunks: seq<seq<byte>>)
    ensures |chunks| == |s| && forall i :: 0 <= i < |s| ==> chunks[i] == [s[i]]
  {
    seq(|s|, i requires 0 <= i < |s| => [s[i]])
  }

  lemma {:induction false} ConcatSingles(s: seq<byte>, rest: seq<seq<byte>>)
    ensures Concat(Singles(s) + rest) == s + Concat(rest)
  {
    if s == [] {
      assert Singles(s) + rest == rest && s + Concat(rest) == Concat(rest);
    } else {
      ConcatSingles(s[1..], rest);
      ConcatFirst(Singles(s) + rest);
      hide Concat, Singles;
      assert (Singles(s) + rest)[0] == [s[0]] && (Singles(s) + rest)[1..] == Singles(s[1..]) + rest;
      assert [s[0]] + (s[1..] + Concat(rest)) == s + Concat(rest);
    }
  }

  lemma {:induction false} ArrivedAfterSingles(buffer: seq<byte>, s: seq<byte>, rest: seq<seq<byte>>)
    requires rest != [] && rest[0] != []
    ensures |buffer + s| < |buffer + Concat(Singles(s) + rest)|
    ensures Arrived(buffer, Singles(s) + rest, |buffer + s|) == |buffer + s + rest[0]|
    decreases |s|
  {
    hide Concat;
    ConcatSingles(s, rest);
    ConcatFirst(rest);
    if s == [] {
      assert Singles(s) + rest == rest;
    } else {
      assert (Singles(s) + rest)[1..] == Singles(s[1..]) + rest;
      assert (buffer + [s[0]]) + s[1..] == buffer + s;
      ArrivedAfterSingles(buffer + [s[0]], s[1..], rest);
    }
  }

  lemma ConcatFirst(rest: seq<seq<byte>>)
    requires rest != []
    ensures Concat(rest) == rest[0] + Concat(rest[1..])
  {
  }

  function Least(a: int, b: int): int {
    if a <= b then a else b
  }

  /** The worst way to cut: the newline comes at the head of a chunk that is as long as possible. */
  lemma WorstCut(s: seq<byte>, n: nat) returns (chunks: seq<seq<byte>>)
    requires n < |s|
    ensures Chunked(chunks) && Concat(chunks) == s
    ensures Arrived([], chunks, n) == Least(|s|, n + RECV_CHUNK)
  {
    hide Concat;
    var end := Least(|s|, n + RECV_CHUNK);
    var rest := [s[n..end]] + Singles(s[end..]);
    assert rest[1..] == Singles(s[end..]) && Singles(s[end..]) + [] == Singles(s[end..]);
    chunks := Singles(s[..n]) + rest;
    ConcatSingles(s[..n], rest);
    ConcatFirst(rest);
    ConcatSingles(s[end..], []);
    EmptyConcat(s[end..]);
    assert s == s[..n] + (s[n..end] + s[end..]);
    assert [] + s[..n] == s[..n];
    ArrivedAfterSingles([], s[..n], rest);
  }

  /**
   Main result: on a fresh connection the outcome is the first line for every way of cutting the
   stream if and only if the line and what can arrive in one chunk with its newline fit in 64 KiB.
   A lone response therefore never depends on the cutting; a response followed by others can.
   */
  lemma AlwaysReturnedExactlyWhen(s: seq<byte>)
    requires FirstNewline(s) < |s|
    ensures AlwaysReturned(s) <==> Least(|s|, FirstNewline(s) + RECV_CHUNK) <= MAX_MESSAGE_BYTES
  {
    hide FirstNewline, Concat, Arrived;
    var n := FirstNewline(s);
    if Least(|s|, n + RECV_CHUNK) <= MAX_MESSAGE_BYTES {
      forall chunks | Chunked(chunks) && Concat(chunks) == s
        ensures ReturnedFrom(chunks, s)
      {
        assert [] + Concat(chunks) == s;
        ArrivedBound([], chunks, n);
      }
    } else {
      var chunks := WorstCut(s, n);
      assert !ReturnedFrom(chunks, s);
    }
  }

  /** The first line is returned from a fresh connection for some cutting. */
  ghost predicate SometimesReturned(s: seq<byte>) {
    && FirstNewline(s) < |s|
    && exists chunks :: Chunked(chunks) && Concat(chunks) == s && ReturnedFrom(chunks, s)
  }

  /** The best way to cut: byte by byte, so that nothing arrives with the newline. */
  lemma BestCut(s: seq<byte>, n: nat) returns (chunks: seq<seq<byte>>)
    requires n < |s|
    ensures Chunked(chunks) && Concat(chunks) == s
    ensures Arrived([], chunks, n) == n + 1
  {
    hide Concat;
    var rest := Singles(s[n..]);
    chunks := Singles(s[..n]) + rest;
    ConcatSingles(s[..n], rest);
    ConcatSingles(s[n..], []);
    assert rest + [] == rest && rest[0] == [s[n]];
    EmptyConcat(s[n..]);
    assert s == s[..n] + s[n..];
    assert [] + s[..n] == s[..n];
    ArrivedAfterSingles([], s[..n], rest);
  }

  /** Some cutting returns the first line if and only if the line itself fits in 64 KiB. */
  lemma SometimesReturnedExactlyWhen(s: seq<byte>)
    requires FirstNewline(s) < |s|
    ensures SometimesReturned(s) <==> FirstNewline(s) + 1 <= MAX_MESSAGE_BYTES
  {
    hide FirstNewline, Concat;
    var n := FirstNewline(s);
    if n + 1 <= MAX_MESSAGE_BYTES {
      var chunks := BestCut(s, n);
      assert ReturnedFrom(chunks, s);
    }
  }

  /** Two cuttings of the same bytes, of which only the first returns the first line. */
  ghost predicate Differ(s: seq<byte>, a: seq<seq<byte>>, b: seq<seq<byte>>) {
    && FirstNewline(s) < |s|
    && Chunked(a) && Concat(a) == s && Chunked(b) && Concat(b) == s
    && ReturnedFrom(a, s) && !ReturnedFrom(b, s)
  }

  /**
   The outcome depends on the cutting if and only if the line fits in 64 KiB and what can arrive in
   one chunk with its newline does not. Shorter lines are always returned, longer ones never.
   */
  lemma CuttingMattersExactlyWhen(s: seq<byte>)
    requires FirstNewline(s) < |s|
    ensures (exists a, b :: Differ(s, a, b))
       <==> FirstNewline(s) + 1 <= 65_536 < Least(|s|, FirstNewline(s) + 4096)
  {
    hide FirstNewline, Concat, Arrived;
    SometimesReturnedExactlyWhen(s);
    AlwaysReturnedExactlyWhen(s);
    if FirstNewline(s) + 1 <= MAX_MESSAGE_BYTES < Least(|s|, FirstNewline(s) + RECV_CHUNK) {
      var a :| Chunked(a) && Concat(a) == s && ReturnedFrom(a, s);
      var b :| Chunked(b) && Concat(b) == s && !ReturnedFrom(b, s);
      assert Differ(s, a, b);
    }
  }

  /** A line of 65000 bytes with 1000 bytes behind it: one cutting returns it, another does not. */
  lemma CuttingCanMatter(line: seq<byte>, more: seq<byte>)
    requires |line| == 65000 && |more| == 1000 && NEWLINE !in line
    ensures exists a, b :: Differ(line + [NEWLINE] + more, a, b)
    ensures AlwaysReturned(line + [NEWLINE])
  {
    hide AlwaysReturned, Differ;
    FirstNewlineUnique(line + [NEWLINE], 65000);
    FirstNewlineUnique(line + [NEWLINE] + more, 65000);
    hide FirstNewline;
    AlwaysReturnedExactlyWhen(line + [NEWLINE]);
    CuttingMattersExactlyWhen(line + [NEWLINE] + more);
  }
}
