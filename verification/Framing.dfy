/**
 NDJSON framing on the engine's side of a connection. Bytes arrive in chunks of any size; what the
 server reads depends only on their concatenation.
 */
module Framing {
  import opened Wrappers

  type byte = x: int | 0 <= x < 256

  const NEWLINE: byte := 10
  const MAX_MESSAGE_BYTES := 65536

  datatype Outcome = Line(bytes: seq<byte>) | TooLarge | Eof

  /** Where the first newline stands; the length of the stream if there is none. */
  function FirstNewline(s: seq<byte>): (n: nat)
    ensures n <= |s| && (n < |s| ==> s[n] == NEWLINE) && forall i :: 0 <= i < n ==> s[i] != NEWLINE
  {
    if s == [] || s[0] == NEWLINE then 0 else 1 + FirstNewline(s[1..])
  }

  /** What one read of a whole stream must yield. */
  function Frame(s: seq<byte>, max: nat): Outcome {
    var n := FirstNewline(s);
    if n < |s| && n + 1 <= max then Line(s[..n + 1])
    else if |s| > max then TooLarge
    else Eof
  }

  lemma FirstNewlineUnique(s: seq<byte>, n: nat)
    requires n <= |s| && (n < |s| ==> s[n] == NEWLINE) && forall i :: 0 <= i < n ==> s[i] != NEWLINE
    ensures FirstNewline(s) == n
  {
  }

  function Concat(chunks: seq<seq<byte>>): seq<byte> {
    if chunks == [] then [] else chunks[0] + Concat(chunks[1..])
  }

  /** A buffered reader over chunks still to arrive; the peer closes after the last one. */
  class BufReader {
    var buf: seq<byte>
    var chunks: seq<seq<byte>>

    constructor (chunks: seq<seq<byte>>)
      requires forall i :: 0 <= i < |chunks| ==> chunks[i] != []
      ensures Valid() && Stream() == Concat(chunks)
    {
      this.chunks := chunks;
      buf := [];
    }

    ghost predicate Valid()
      reads this
    {
      forall i :: 0 <= i < |chunks| ==> chunks[i] != []
    }

    ghost function Stream(): seq<byte>
      reads this
    {
      buf + Concat(chunks)
    }

    /** Waits for bytes if none are buffered; an empty result means the peer has closed. */
    method FillBuf() returns (available: seq<byte>)
      requires Valid()
      modifies this
      ensures Valid() && Stream() == old(Stream()) && available == buf
      ensures available == [] <==> Stream() == []
    {
      if buf == [] && chunks != [] {
        buf, chunks := chunks[0], chunks[1..];
      }
      available := buf;
    }

    method Consume(n: nat)
      requires Valid() && n <= |buf|
      modifies this
      ensures Valid() && Stream() == old(Stream())[n..] && chunks == old(chunks)
    {
      buf := buf[n..];
    }
  }

  method Position(s: seq<byte>) returns (n: nat)
    ensures n == FirstNewline(s)
  {
    n := 0;
    while n < |s| && s[n] != NEWLINE
      invariant n <= |s| && forall i :: 0 <= i < n ==> s[i] != NEWLINE
    {
      n := n + 1;
    }
    FirstNewlineUnique(s, n);
  }

  predicate NoNewline(s: seq<byte>) {
    forall i :: 0 <= i < |s| ==> s[i] != NEWLINE
  }

  // The three ways one turn of the read loop can go, on the stream it has cut into
  // what was read before, what is available now and what is still to come.

  lemma StreamEnds(read: seq<byte>, max: nat)
    requires NoNewline(read) && |read| <= max
    ensures Frame(read + [], max) == Eof
  {
    assert read + [] == read;
    FirstNewlineUnique(read, |read|);
  }

  lemma LineFound(read: seq<byte>, now: seq<byte>, later: seq<byte>, n: nat, max: nat)
    requires NoNewline(read) && n < |now| && n == FirstNewline(now)
    ensures var line := read + now[..n + 1];
            && Frame(read + (now + later), max) == (if |line| <= max then Line(line) else TooLarge)
            && read + (now + later) == line + (now + later)[n + 1..]
  {
    var s := read + (now + later);
    FirstNewlineUnique(s, |read| + n);
    assert s[..|read| + n + 1] == read + now[..n + 1];
  }

  lemma NothingFound(read: seq<byte>, now: seq<byte>, later: seq<byte>, max: nat)
    requires NoNewline(read) && FirstNewline(now) == |now|
    ensures NoNewline(read + now)
    ensures |read + now| > max ==> Frame(read + (now + later), max) == TooLarge
    ensures read + (now + later) == (read + now) + (now + later)[|now|..]
  {
    hide FirstNewline, NoNewline, Frame;
    NoNewlineConcat(read, now);
    assert (now + later)[|now|..] == later;
    assert read + (now + later) == (read + now) + later;
    if |read + now| > max {
      Overflows(read + now, later, max);
    }
  }

  lemma NoNewlineConcat(read: seq<byte>, now: seq<byte>)
    requires NoNewline(read) && FirstNewline(now) == |now|
    ensures NoNewline(read + now)
  {
    hide FirstNewline;
  }

  lemma Overflows(read: seq<byte>, later: seq<byte>, max: nat)
    requires NoNewline(read) && |read| > max
    ensures Frame(read + later, max) == TooLarge
  {
    hide FirstNewline, NoNewline;
    LateNewline(read, later);
  }

  lemma LateNewline(read: seq<byte>, later: seq<byte>)
    requires NoNewline(read)
    ensures FirstNewline(read + later) == |read| + FirstNewline(later)
  {
    hide FirstNewline;
    FirstNewlineUnique(read + later, |read| + FirstNewline(later));
  }

  /**
   Main result: for every way of cutting the stream into nonempty chunks the outcome is the one that
   the whole stream determines, and after a line exactly the bytes behind it are left.
   */
  method ReadLineLimited(reader: BufReader, max: nat) returns (r: Outcome)
    requires reader.Valid()
    modifies reader
    ensures reader.Valid()
    ensures r == Frame(old(reader.Stream()), max)
    ensures r.Line? ==> old(reader.Stream()) == r.bytes + reader.Stream()
  {
    hide Frame, FirstNewline, Concat, NoNewline;
    ghost var stream := reader.Stream();
    var accumulated: seq<byte> := [];
    NothingIsClean();
    while true
      invariant reader.Valid() && stream == accumulated + reader.Stream()
      invariant |accumulated| <= max && NoNewline(accumulated)
      decreases |reader.Stream()|
    {
      var available := reader.FillBuf();
      if available == [] {
        StreamEnds(accumulated, max);
        return Eof;
      }
      ghost var later := Concat(reader.chunks);
      var n := Position(available);
      if n < |available| {
        LineFound(accumulated, available, later, n, max);
        accumulated := accumulated + available[..n + 1];
        reader.Consume(n + 1);
        if |accumulated| > max {
          return TooLarge;
        }
        return Line(accumulated);
      }
      PositionBound(available);
      NothingFound(accumulated, available, later, max);
      accumulated := accumulated + available;
      reader.Consume(|available|);
      if |accumulated| > max {
        return TooLarge;
      }
    }
  }

  lemma NothingIsClean()
    ensures NoNewline([])
  {
  }

  lemma PositionBound(s: seq<byte>)
    ensures FirstNewline(s) <= |s|
  {
  }

  /** The limit in numbers: a line of 65 536 bytes with its newline is read, one of 65 537 is too large. */
  lemma LimitIsExact(body: seq<byte>, rest: seq<byte>)
    requires NEWLINE !in body
    ensures Frame(body + [10] + rest, MAX_MESSAGE_BYTES) == if |body| <= 65_535 then Line(body + [10]) else TooLarge
  {
    var s := body + [10] + rest;
    FirstNewlineUnique(s, |body|);
    assert s[..|body| + 1] == body + [10];
  }

  /** All the lines a connection delivers before it ends, and how it ends. */
  datatype Session = Session(lines: seq<seq<byte>>, end: Outcome)

  function Frames(s: seq<byte>, max: nat): Session
    decreases |s|
  {
    var f := Frame(s, max);
    if !f.Line? then Session([], f)
    else
      var rest := Frames(s[|f.bytes|..], max);
      Session([f.bytes] + rest.lines, rest.end)
  }

  /** The read loop of a connection handler: the lines it serves do not depend on the chunking either. */
  method ReadConnection(reader: BufReader) returns (session: Session)
    requires reader.Valid()
    modifies reader
    ensures session == Frames(old(reader.Stream()), MAX_MESSAGE_BYTES)
  {
    hide Frame, Frames, Concat;
    ghost var stream := reader.Stream();
    var lines: seq<seq<byte>> := [];
    while true
      invariant reader.Valid()
      invariant Frames(stream, MAX_MESSAGE_BYTES)
             == (var rest := Frames(reader.Stream(), MAX_MESSAGE_BYTES); Session(lines + rest.lines, rest.end))
      decreases |reader.Stream()|
    {
      ghost var before := reader.Stream();
      var r := ReadLineLimited(reader, MAX_MESSAGE_BYTES);
      FramesEnd(before, MAX_MESSAGE_BYTES, lines);
      if !r.Line? {
        return Session(lines, r);
      }
      FramesNext(before, r.bytes, reader.Stream(), MAX_MESSAGE_BYTES, lines);
      lines := lines + [r.bytes];
    }
  }

  lemma FramesEnd(s: seq<byte>, max: nat, lines: seq<seq<byte>>)
    ensures !Frame(s, max).Line? ==> Frames(s, max) == Session([], Frame(s, max)) && lines + Frames(s, max).lines == lines
  {
    hide Frame;
  }

  lemma FramesNext(s: seq<byte>, line: seq<byte>, rest: seq<byte>, max: nat, lines: seq<seq<byte>>)
    requires Frame(s, max) == Line(line) && s == line + rest
    ensures |rest| < |s|
    ensures Frames(s, max).end == Frames(rest, max).end
    ensures lines + Frames(s, max).lines == (lines + [line]) + Frames(rest, max).lines
  {
    assert s[|line|..] == rest;
  }

  /** No byte is lost or repeated: the lines followed by the unread rest are the stream. */
  lemma {:induction false} FramesPartition(s: seq<byte>, max: nat) returns (rest: seq<byte>)
    ensures s == Concat(Frames(s, max).lines) + rest
    ensures Frames(s, max).end == Frame(rest, max) && !Frames(s, max).end.Line?
    ensures forall i :: 0 <= i < |Frames(s, max).lines| ==>
              var line := Frames(s, max).lines[i];
              1 <= |line| <= max && FirstNewline(line) == |line| - 1
    decreases |s|
  {
    var f := Frame(s, max);
    if f.Line? {
      var tail := s[|f.bytes|..];
      rest := FramesPartition(tail, max);
      FirstNewlineUnique(f.bytes, |f.bytes| - 1);
      var more := Frames(tail, max).lines;
      assert Frames(s, max).lines == [f.bytes] + more;
      assert ([f.bytes] + more)[1..] == more;
      assert s == f.bytes + tail;
    } else {
      rest := s;
    }
  }
}
