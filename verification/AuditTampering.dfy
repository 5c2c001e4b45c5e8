/**
 What the verifier says of a log in which one line was rewritten: any event, any hash, any link. The
 verdict is exact, so it also says which rewritings go unnoticed: those that keep the line's hash.
 */
module AuditTampering {
  import opened Wrappers
  import opened AuditEvent
  import opened AuditChain
  import opened AuditWithSha256
  import AuditReading
  import Sha256

  /** The link that line `i` should carry. */
  function LinkTo(hash: Hash, lines: seq<string>, i: nat): Option<string>
    requires i <= |lines|
  {
    if i == 0 then None else Some(hash(lines[i - 1]))
  }

  ghost predicate HexOption(o: Option<string>) {
    o.Some? ==> Hex(o.value)
  }

  /** The check of any line the engine could have printed, in terms of what was printed. */
  lemma CheckOfPrinted(hash: Hash, parse: Parser, lines: seq<string>, i: nat, e: Event, h: string, p: Option<string>)
    requires ReadsCompactJson(parse) && PrintableEvent(e) && Hex(h) && HexOption(p)
    requires i < |lines| && lines[i] == Line(e, Some(h), p)
    ensures CheckLine(hash, parse, lines, i)
         == if i == 0 && p.Some? then Some(Broken(1, None, p, UnexpectedHashPrev))
            else if p != LinkTo(hash, lines, i) then Some(Broken(i + 1, LinkTo(hash, lines, i), p, HashPrevMismatch))
            else if h != hash(Payload(e)) then Some(Broken(i + 1, Some(hash(Payload(e))), Some(h), HashMismatch))
            else None
  {
    hide Line, StripHashFields, Payload, ReadsCompactJson, PrintableEvent, Hex;
    LineIsRead(parse, e, h, p);
    StripRecoversPayload(e, h, p);
  }

  lemma CheckIsLocal(hash: Hash, parse: Parser, a: seq<string>, b: seq<string>, i: nat)
    requires i < |a| && i < |b| && a[i] == b[i] && (i > 0 ==> a[i - 1] == b[i - 1])
    ensures CheckLine(hash, parse, a, i) == CheckLine(hash, parse, b, i)
  {
    hide StripHashFields;
  }

  /** The verdict on a written log whose line `i` was replaced by a line with event `e`, hash `h` and link `p`. */
  function RewrittenVerdict(hash: Hash, events: seq<Event>, i: nat, e: Event, h: string, p: Option<string>): Verdict
    requires i < |events|
  {
    var lines, line := LogLines(hash, events), Line(e, Some(h), p);
    if i == 0 && p.Some? then Broken(1, None, p, UnexpectedHashPrev)
    else if p != LinkTo(hash, lines, i) then Broken(i + 1, LinkTo(hash, lines, i), p, HashPrevMismatch)
    else if h != hash(Payload(e)) then Broken(i + 1, Some(hash(Payload(e))), Some(h), HashMismatch)
    else if i + 1 < |events| && hash(line) != hash(lines[i]) then
      Broken(i + 2, Some(hash(line)), Some(hash(lines[i])), HashPrevMismatch)
    else Valid(|events|)
  }

  /** The line behind the rewritten one still carries the link to the line that was there. */
  lemma CheckBehind(hash: Hash, parse: Parser, events: seq<Event>, i: nat, line: string)
    requires HexDigests(hash) && ReadsCompactJson(parse) && AllPrintable(events) && i + 1 < |events|
    ensures var lines := LogLines(hash, events);
            CheckLine(hash, parse, lines[i := line], i + 1)
            == if hash(line) == hash(lines[i]) then None
               else Some(Broken(i + 2, Some(hash(line)), Some(hash(lines[i])), HashPrevMismatch))
  {
    hide Line, LogLines, CheckLine, Payload, ReadsCompactJson, PrintableEvent;
    var lines, e := LogLines(hash, events), events[i + 1];
    LogLineAt(hash, events, i + 1);
    CheckOfPrinted(hash, parse, lines[i := line], i + 1, e, hash(Payload(e)), Some(hash(lines[i])));
  }

  /**
   Main result: rewriting one line of a written log in any way gives exactly this verdict. A changed
   event with the old hash is a hash mismatch at its own line; a recomputed hash is found at the
   next line; only a change of the last line with a recomputed hash, or a collision, goes unnoticed.
   */
  lemma RewrittenLine(hash: Hash, parse: Parser, events: seq<Event>, i: nat, e: Event, h: string, p: Option<string>)
    requires HexDigests(hash) && ReadsCompactJson(parse) && AllPrintable(events) && i < |events|
    requires PrintableEvent(e) && Hex(h) && HexOption(p)
    ensures IsVerdict(hash, parse, LogLines(hash, events)[i := Line(e, Some(h), p)], RewrittenVerdict(hash, events, i, e, h, p))
  {
    hide Line, LogLines, CheckLine, Payload, ReadsCompactJson, PrintableEvent, Hex, HexDigests, AllPrintable;
    var lines, line := LogLines(hash, events), Line(e, Some(h), p);
    var edited := lines[i := line];
    CheckOfPrinted(hash, parse, edited, i, e, h, p);
    if i + 1 < |events| {
      CheckBehind(hash, parse, events, i, line);
    }
    forall j: nat | j < |edited| && j != i && j != i + 1
      ensures CheckLine(hash, parse, edited, j) == None
    {
      LogLineIsAccepted(hash, parse, events, j);
      CheckIsLocal(hash, parse, edited, lines, j);
    }
  }

  /** A changed event with the stored hash and link left alone is reported at its line, or the payloads collide. */
  lemma EditedEvent(hash: Hash, parse: Parser, events: seq<Event>, i: nat, e: Event)
    requires HexDigests(hash) && ReadsCompactJson(parse) && AllPrintable(events) && i < |events| && PrintableEvent(e)
    requires hash(Payload(e)) != hash(Payload(events[i]))
    ensures var lines, h := LogLines(hash, events), hash(Payload(events[i]));
            IsVerdict(hash, parse, lines[i := Line(e, Some(h), LinkTo(hash, lines, i))],
                      Broken(i + 1, Some(hash(Payload(e))), Some(h), HashMismatch))
  {
    hide Line, LogLines, IsVerdict, Payload, ReadsCompactJson, PrintableEvent, AllPrintable, Hex;
    RewrittenLine(hash, parse, events, i, e, hash(Payload(events[i])), LinkTo(hash, LogLines(hash, events), i));
  }

  /** A line that is no object, or has no `hash` text, is never accepted. */
  lemma UnhashedLineIsRefused(hash: Hash, parse: Parser, lines: seq<string>, i: nat)
    requires i < |lines| && (!parse(lines[i]).HashFields? || parse(lines[i]).hash == None)
    ensures !Accepted(hash, parse, lines)
  {
    hide StripHashFields;
    assert CheckLine(hash, parse, lines, i) != None;
  }

  /** A line that is not JSON, or JSON but no object, behind good lines is reported as such. */
  lemma ForeignLine(hash: Hash, parse: Parser, lines: seq<string>, i: nat)
    requires i < |lines| && !parse(lines[i]).HashFields? && Accepted(hash, parse, lines[..i])
    ensures IsVerdict(hash, parse, lines, if parse(lines[i]).Malformed? then JsonError(i + 1) else Broken(i + 1, None, None, NotAnObject))
  {
    assert CheckLine(hash, parse, lines, i).Some?;
    hide StripHashFields;
    forall j: nat | j < i
      ensures CheckLine(hash, parse, lines, j) == None
    {
      assert CheckLine(hash, parse, lines[..i], j) == None;
      CheckIsLocal(hash, parse, lines, lines[..i], j);
    }
  }

  /** An accepted line's stored hash is the hash of the rest of the line. */
  lemma AcceptedHash(hash: Hash, parse: Parser, lines: seq<string>, i: nat)
    requires i < |lines| && Accepted(hash, parse, lines)
    ensures parse(lines[i]).HashFields?
    ensures var f := parse(lines[i]); f.hash == Some(hash(StripHashFields(lines[i], f.hash, f.hashPrev)))
  {
    hide StripHashFields;
    assert CheckLine(hash, parse, lines, i) == None;
  }

  /** With SHA-256: a change of any field is reported, or the two payloads are a SHA-256 collision. */
  lemma EditedEventWithSha256(events: seq<Event>, i: nat, e: Event)
    requires AllPrintable(events) && i < |events| && PrintableEvent(e) && e != events[i]
    ensures var lines, h := LogLines(Sha256Hex, events), Sha256Hex(Payload(events[i]));
            || Sha256Collision(Utf8(Payload(e)), Utf8(Payload(events[i])))
            || IsVerdict(Sha256Hex, ReadLine, lines[i := Line(e, Some(h), LinkTo(Sha256Hex, lines, i))],
                         Broken(i + 1, Some(Sha256Hex(Payload(e))), Some(h), HashMismatch))
  {
    hide *;
    if Sha256Hex(Payload(e)) != Sha256Hex(Payload(events[i])) {
      Sha256HexIsHex();
      ReadLineReads();
      EditedEvent(Sha256Hex, ReadLine, events, i, e);
    } else {
      SameDigest(events, i, e);
    }
  }

  lemma SameDigest(events: seq<Event>, i: nat, e: Event)
    requires AllPrintable(events) && i < |events| && PrintableEvent(e) && e != events[i]
    requires Sha256Hex(Payload(e)) == Sha256Hex(Payload(events[i]))
    ensures Sha256Collision(Utf8(Payload(e)), Utf8(Payload(events[i])))
  {
    hide Payload, PrintableEvent, Utf8, Sha256.Digest;
    if Utf8(Payload(e)) == Utf8(Payload(events[i])) {
      Utf8Injective(Payload(e), Payload(events[i]));
      AuditReading.PayloadIsInjective(e, events[i]);
      assert false;
    }
  }
}
