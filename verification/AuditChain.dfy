/**
 The hash chain: the engine's writer, the command-line verifier, and what links them. SHA-256 and the
 JSON reader are parameters; collisions of the former are exhibited, never assumed away.
 */
module AuditChain {
  import opened Wrappers
  import opened Json
  import opened JsonText
  import opened AuditEvent

  type Hash = string -> string

  /** What the verifier takes from the parsed line. */
  datatype Parsed = Malformed | NotObject | HashFields(hash: Option<string>, hashPrev: Option<string>)

  type Parser = string -> Parsed

  // ---------------------------------------------------------------------
  // The writer
  // ---------------------------------------------------------------------

  /** The line for one event behind a given previous line. */
  function ChainLine(hash: Hash, e: Event, previous: Option<string>): string {
    Line(e, Some(hash(Payload(e))), if previous.Some? then Some(hash(previous.value)) else None)
  }

  function LastLine(lines: seq<string>): Option<string> {
    if lines == [] then None else Some(Last(lines))
  }

  /** The lines of a whole session on an empty file. */
  function LogLines(hash: Hash, events: seq<Event>): (lines: seq<string>)
    ensures |lines| == |events|
  {
    if events == [] then []
    else
      var before := LogLines(hash, Front(events));
      before + [ChainLine(hash, Last(events), LastLine(before))]
  }

  function LogText(lines: seq<string>): string {
    if lines == [] then "" else LogText(Front(lines)) + (Last(lines) + "\n")
  }

  lemma LogExtends(hash: Hash, events: seq<Event>, e: Event)
    ensures var before, line := LogLines(hash, events), ChainLine(hash, e, LastLine(LogLines(hash, events)));
            && LogLines(hash, events + [e]) == before + [line]
            && LogText(before + [line]) == LogText(before) + (line + "\n")
  {
    hide ChainLine;
    var before, line := LogLines(hash, events), ChainLine(hash, e, LastLine(LogLines(hash, events)));
    assert Front(events + [e]) == events && Last(events + [e]) == e;
    assert Front(before + [line]) == before && Last(before + [line]) == line;
  }

  class AuditWriter {
    const hash: Hash
    var file: string
    var lastHash: string
    var eventCount: nat
    /** What the file held when it was opened. */
    ghost const found: string
    /** The events written so far. */
    ghost var events: seq<Event>
    /** No write has failed. */
    ghost var intact: bool

    ghost predicate Valid()
      reads this
    {
      && eventCount == |events|
      && lastHash == (if events == [] then hash("") else hash(Last(LogLines(hash, events))))
      && (intact ==> file == found + LogText(LogLines(hash, events)))
    }

    /** Opening a file for appending: the chain starts at the hash of the empty string, whatever the file holds. */
    constructor (hash: Hash, content: string)
      ensures Valid() && this.hash == hash && found == content && events == [] && intact && file == content
    {
      this.hash := hash;
      found := content;
      file, lastHash, eventCount := content, hash(""), 0;
      events, intact := [], true;
      assert content + "" == content;
    }

    /**
     Write one event. `written` is how much of the line reaches the file when the write fails; the
     chain state then stays as it was and the caller kills the run.
     */
    method WriteEvent(e: Event, ioOk: bool, written: nat) returns (ok: bool)
      requires Valid()
      modifies this
      ensures Valid() && ok == ioOk
      ensures ok ==> events == old(events) + [e] && intact == old(intact)
      ensures !ok ==> events == old(events) && !intact && old(file) <= file
    {
      hide Line, LogLines, LogText;
      var hashPrev := if eventCount == 0 then None else Some(lastHash);
      var eventHash := hash(Line(e, None, None));
      var line := Line(e, Some(eventHash), hashPrev);
      assert line == ChainLine(hash, e, LastLine(LogLines(hash, events)));
      LogExtends(hash, events, e);
      if !ioOk {
        var out := line + "\n";
        file := file + (if written <= |out| then out[..written] else out);
        intact := false;
        return false;
      }
      file := file + (line + "\n");
      lastHash := hash(line);
      eventCount := eventCount + 1;
      events := events + [e];
      return true;
    }
  }

  // ---------------------------------------------------------------------
  // Reading lines back
  // ---------------------------------------------------------------------

  function NewlineAt(t: string): (n: nat)
    ensures n <= |t| && '\n' !in t[..n] && (n < |t| ==> t[n] == '\n')
  {
    if t == "" || t[0] == '\n' then 0
    else
      var n := NewlineAt(t[1..]);
      assert t[..1 + n] == [t[0]] + t[1..][..n];
      1 + n
  }

  /** A carriage return counts as part of the line end only in front of a newline. */
  function DropCr(line: string): string {
    if line != "" && Last(line) == '\r' then Front(line) else line
  }

  function SplitLines(t: string): seq<string>
    decreases |t|
  {
    var n := NewlineAt(t);
    if t == "" then []
    else if n == |t| then [t]
    else [DropCr(t[..n])] + SplitLines(t[n + 1..])
  }

  /** Unicode White_Space. */
  predicate Whitespace(c: char) {
    var n := c as int;
    0x09 <= n <= 0x0D || n == 0x20 || n == 0x85 || n == 0xA0 || n == 0x1680 || 0x2000 <= n <= 0x200A
    || n == 0x2028 || n == 0x2029 || n == 0x202F || n == 0x205F || n == 0x3000
  }

  lemma WhitespaceMeans(c: char)
    ensures Whitespace(c)
       <==> c as int in {0x09, 0x0A, 0x0B, 0x0C, 0x0D, 0x20, 0x85, 0xA0, 0x1680, 0x2000, 0x2001, 0x2002, 0x2003, 0x2004, 0x2005,
                         0x2006, 0x2007, 0x2008, 0x2009, 0x200A, 0x2028, 0x2029, 0x202F, 0x205F, 0x3000}
  {
  }

  predicate Blank(line: string) {
    forall i :: 0 <= i < |line| ==> Whitespace(line[i])
  }

  function NonBlank(lines: seq<string>): seq<string> {
    if lines == [] then []
    else (if Blank(lines[0]) then [] else [lines[0]]) + NonBlank(lines[1..])
  }

  function ContentLines(content: string): seq<string> {
    NonBlank(SplitLines(content))
  }

  // ---------------------------------------------------------------------
  // The verifier
  // ---------------------------------------------------------------------

  datatype Break = NotAnObject | UnexpectedHashPrev | HashPrevMismatch | HashMismatch

  datatype Verdict =
    | Valid(count: nat)
    | Broken(line: nat, expected: Option<string>, actual: Option<string>, why: Break)
    | JsonError(line: nat)

  /** What is wrong with line `i`, counted from one in reports; None if nothing is. */
  function CheckLine(hash: Hash, parse: Parser, lines: seq<string>, i: nat): (r: Option<Verdict>)
    requires i < |lines|
    ensures r.Some? ==> !r.value.Valid? && r.value.line == i + 1
  {
    match parse(lines[i])
    case Malformed => Some(JsonError(i + 1))
    case NotObject => Some(Broken(i + 1, None, None, NotAnObject))
    case HashFields(stored, prev) =>
      if i == 0 && prev.Some? then Some(Broken(1, None, prev, UnexpectedHashPrev))
      else if i > 0 && prev != Some(hash(lines[i - 1])) then
        Some(Broken(i + 1, Some(hash(lines[i - 1])), prev, HashPrevMismatch))
      else
        var computed := hash(StripHashFields(lines[i], stored, prev));
        if stored != Some(computed) then Some(Broken(i + 1, Some(computed), stored, HashMismatch)) else None
  }

  ghost predicate Accepted(hash: Hash, parse: Parser, lines: seq<string>) {
    forall i: nat :: i < |lines| ==> CheckLine(hash, parse, lines, i) == None
  }

  /** The verdict is the first failure, or valid with the number of lines. */
  ghost predicate IsVerdict(hash: Hash, parse: Parser, lines: seq<string>, v: Verdict) {
    if v.Valid? then v.count == |lines| && Accepted(hash, parse, lines)
    else
      && 1 <= v.line <= |lines|
      && CheckLine(hash, parse, lines, v.line - 1) == Some(v)
      && forall j: nat :: j < v.line - 1 ==> CheckLine(hash, parse, lines, j) == None
  }

  method VerifyChain(hash: Hash, parse: Parser, content: string) returns (v: Verdict)
    ensures IsVerdict(hash, parse, ContentLines(content), v)
  {
    hide StripHashFields;
    var lines := ContentLines(content);
    if lines == [] {
      return Valid(0);
    }
    for i := 0 to |lines|
      invariant forall j: nat :: j < i ==> CheckLine(hash, parse, lines, j) == None
    {
      var parsed := parse(lines[i]);
      if parsed.Malformed? {
        return JsonError(i + 1);
      }
      if parsed.NotObject? {
        return Broken(i + 1, None, None, NotAnObject);
      }
      if i == 0 {
        if parsed.hashPrev.Some? {
          return Broken(1, None, parsed.hashPrev, UnexpectedHashPrev);
        }
      } else {
        var expected := hash(lines[i - 1]);
        if parsed.hashPrev != Some(expected) {
          return Broken(i + 1, Some(expected), parsed.hashPrev, HashPrevMismatch);
        }
      }
      var computed := hash(StripHashFields(lines[i], parsed.hash, parsed.hashPrev));
      if parsed.hash != Some(computed) {
        return Broken(i + 1, Some(computed), parsed.hash, HashMismatch);
      }
    }
    return Valid(|lines|);
  }

  /** There is one verdict, so a reported break is the least failing position. */
  lemma VerdictIsUnique(hash: Hash, parse: Parser, lines: seq<string>, v: Verdict, w: Verdict)
    requires IsVerdict(hash, parse, lines, v) && IsVerdict(hash, parse, lines, w)
    ensures v == w
  {
    hide CheckLine;
  }

  // ---------------------------------------------------------------------
  // Tamper evidence
  // ---------------------------------------------------------------------

  /** Every prefix of an accepted log is accepted. */
  lemma PrefixIsAccepted(hash: Hash, parse: Parser, lines: seq<string>, n: nat)
    requires n <= |lines| && Accepted(hash, parse, lines)
    ensures Accepted(hash, parse, lines[..n])
  {
    hide StripHashFields;
    forall i: nat | i < n
      ensures CheckLine(hash, parse, lines[..n], i) == None
    {
      assert CheckLine(hash, parse, lines, i) == None;
    }
  }

  /** Two different lines, one of each log, with the same hash. */
  ghost predicate Collision(hash: Hash, a: seq<string>, b: seq<string>) {
    exists i, j :: 0 <= i < |a| && 0 <= j < |b| && a[i] != b[j] && hash(a[i]) == hash(b[j])
  }

  lemma AcceptedLink(hash: Hash, parse: Parser, lines: seq<string>, i: nat)
    requires i < |lines| && Accepted(hash, parse, lines)
    ensures parse(lines[i]).HashFields?
    ensures parse(lines[i]).hashPrev == if i == 0 then None else Some(hash(lines[i - 1]))
  {
    hide StripHashFields;
    assert CheckLine(hash, parse, lines, i) == None;
  }

  /**
   Two accepted logs that end in the same line are the same log, length included, or two of their
   lines collide under the hash. The last line commits to everything before it.
   */
  lemma {:induction false} TamperEvidence(hash: Hash, parse: Parser, a: seq<string>, b: seq<string>)
    requires Accepted(hash, parse, a) && Accepted(hash, parse, b)
    requires a != [] && b != [] && Last(a) == Last(b)
    ensures a == b || Collision(hash, a, b)
    decreases |a|
  {
    hide CheckLine, Accepted;
    AcceptedLink(hash, parse, a, |a| - 1);
    AcceptedLink(hash, parse, b, |b| - 1);
    if |a| > 1 {
      var p, q := Front(a), Front(b);
      assert hash(Last(p)) == hash(Last(q));
      if Last(p) == Last(q) {
        PrefixIsAccepted(hash, parse, a, |a| - 1);
        PrefixIsAccepted(hash, parse, b, |b| - 1);
        TamperEvidence(hash, parse, p, q);
        if Collision(hash, p, q) {
          var i, j :| 0 <= i < |p| && 0 <= j < |q| && p[i] != q[j] && hash(p[i]) == hash(q[j]);
          assert a[i] == p[i] && b[j] == q[j];
        } else {
          assert a == p + [Last(a)] && b == q + [Last(b)];
        }
      } else {
        assert Last(p) == a[|a| - 2] && Last(q) == b[|b| - 2];
      }
    } else {
      assert a == [Last(a)] && b == [Last(b)];
    }
  }

  // ---------------------------------------------------------------------
  // Round trip
  // ---------------------------------------------------------------------

  function TextOf(v: Option<Json>): Option<string> {
    if v.Some? && v.value.Str? then Some(v.value.s) else None
  }

  ghost predicate Once(ms: seq<Member>, key: string) {
    forall i, j :: 0 <= i < j < |ms| ==> ms[i].key != key || ms[j].key != key
  }

  /** The JSON reader inverts compact printing of objects that name the two hash fields at most once. */
  ghost predicate ReadsCompactJson(parse: Parser) {
    forall ms: seq<Member> ::
      Printable(Obj(ms)) && Once(ms, "hash") && Once(ms, "hash_prev") ==>
        parse(Text(Obj(ms))) == HashFields(TextOf(Lookup(ms, "hash")), TextOf(Lookup(ms, "hash_prev")))
  }

  ghost predicate HexDigests(hash: Hash) {
    forall s: string :: Hex(hash(s))
  }

  /** A reader with that property: the parser of `JsonText`. */
  function ReadLine(line: string): Parsed {
    match Parse(line)
    case None => Malformed
    case Some(Obj(ms)) => HashFields(TextOf(Lookup(ms, "hash")), TextOf(Lookup(ms, "hash_prev")))
    case Some(_) => NotObject
  }

  lemma ReadLineReads()
    ensures ReadsCompactJson(ReadLine)
  {
    forall ms: seq<Member> | Printable(Obj(ms))
      ensures ReadLine(Text(Obj(ms))) == HashFields(TextOf(Lookup(ms, "hash")), TextOf(Lookup(ms, "hash_prev")))
    {
      ParseInvertsText(Obj(ms));
    }
  }

  // The members of a line: which keys they have and what they hold.

  /** No other field name starts like a hash field. */
  ghost predicate Unhashed(ms: seq<Member>) {
    forall i :: 0 <= i < |ms| ==> ms[i].key != "" && ms[i].key[0] != 'h' && Printable(ms[i].value)
  }

  ghost predicate GoodFields(fields: seq<Field>) {
    forall i :: 0 <= i < |fields| ==>
      fields[i].name != "" && fields[i].name[0] != 'h' && (fields[i].value.Some? ==> Printable(fields[i].value.value))
  }

  lemma {:induction false} PresentUnhashed(fields: seq<Field>)
    requires GoodFields(fields)
    ensures Unhashed(Present(fields))
  {
    if fields != [] {
      PresentUnhashed(fields[1..]);
    }
  }

  lemma EventUnhashed(e: Event)
    requires PrintableEvent(e)
    ensures Unhashed(Head(e)) && Unhashed(Tail(e))
  {
    hide Present;
    assert GoodFields(OptionalFields(e));
    PresentUnhashed(OptionalFields(e));
  }

  lemma {:induction false} LookupSkips(a: seq<Member>, b: seq<Member>, key: string)
    requires forall i :: 0 <= i < |a| ==> a[i].key != key
    ensures Lookup(a + b, key) == Lookup(b, key)
  {
    if a == [] {
      assert a + b == b;
    } else {
      LookupSkips(a[1..], b, key);
      assert (a + b)[1..] == a[1..] + b;
    }
  }

  lemma {:induction false} LookupAbsent(a: seq<Member>, key: string)
    requires forall i :: 0 <= i < |a| ==> a[i].key != key
    ensures Lookup(a, key) == None
  {
    if a != [] {
      LookupAbsent(a[1..], key);
    }
  }

  lemma UnhashedKeys(a: seq<Member>)
    requires Unhashed(a)
    ensures forall i :: 0 <= i < |a| ==> a[i].key != "hash" && a[i].key != "hash_prev"
  {
    forall i | 0 <= i < |a|
      ensures a[i].key != "hash" && a[i].key != "hash_prev"
    {
      assert "hash"[0] == 'h' && "hash_prev"[0] == 'h';
    }
  }

  /** The two hash members between an unhashed head and tail are found, and found once. */
  lemma HashMembersRead(head: seq<Member>, tail: seq<Member>, h: string, p: Option<string>)
    requires Unhashed(head) && Unhashed(tail)
    ensures var ms := head + [Member("hash", Str(h))] + Optional("hash_prev", p) + tail;
            && Printable(Obj(ms)) && Once(ms, "hash") && Once(ms, "hash_prev")
            && TextOf(Lookup(ms, "hash")) == Some(h) && TextOf(Lookup(ms, "hash_prev")) == p
  {
    var hm, pm := [Member("hash", Str(h))], Optional("hash_prev", p);
    var ms := head + hm + pm + tail;
    UnhashedKeys(head);
    UnhashedKeys(tail);
    assert |"hash"| != |"hash_prev"|;
    assert ms == head + (hm + (pm + tail));
    LookupSkips(head, hm + (pm + tail), "hash");
    LookupSkips(head, hm + (pm + tail), "hash_prev");
    LookupSkips(hm, pm + tail, "hash_prev");
    if p.None? {
      assert pm + tail == tail;
      LookupAbsent(tail, "hash_prev");
    }
  }

  lemma LineIsRead(parse: Parser, e: Event, h: string, p: Option<string>)
    requires ReadsCompactJson(parse) && PrintableEvent(e)
    ensures parse(Line(e, Some(h), p)) == HashFields(Some(h), p)
  {
    hide Head, Tail, Text, Lookup, Once;
    EventUnhashed(e);
    HashMembersRead(Head(e), Tail(e), h, p);
    var ms := Head(e) + [Member("hash", Str(h))] + Optional("hash_prev", p) + Tail(e);
    assert Fields(e, Some(h), p) == ms;
  }

  // ---------------------------------------------------------------------

  /** A line that survives writing and reading: no newline, no blank line, no trailing carriage return. */
  ghost predicate Intact(line: string) {
    line != "" && line[0] == '{' && Last(line) == '}' && '\n' !in line
  }

  lemma {:induction false} TextHasNoControl(v: Json, i: nat)
    requires Printable(v) && i < |Text(v)|
    ensures Text(v)[i] as int >= 0x20
    decreases v, 1
  {
    match v
    case Null =>
    case Bool(_) =>
    case Num(t) => assert NumberChar(t[i]);
    case Str(s) => QuoteHasNoControl(s, i);
    case Arr(items) =>
      if 0 < i < |Text(v)| - 1 {
        assert Text(v)[i] == ItemsText(items)[i - 1];
        ItemsHaveNoControl(items, i - 1);
      }
    case Obj(ms) =>
      if 0 < i < |Text(v)| - 1 {
        assert Text(v)[i] == MembersText(ms)[i - 1];
        MembersHaveNoControl(ms, i - 1);
      }
  }

  lemma QuoteHasNoControl(s: string, i: nat)
    requires i < |Quote(s)|
    ensures Quote(s)[i] as int >= 0x20
  {
    hide Escape;
    if 0 < i < |Quote(s)| - 1 {
      EscapedChars(s, i - 1);
      assert Quote(s)[i] == Escape(s)[i - 1];
    }
  }

  lemma {:induction false} ItemsHaveNoControl(items: seq<Json>, i: nat)
    requires (forall k :: 0 <= k < |items| ==> Printable(items[k])) && i < |ItemsText(items)|
    ensures ItemsText(items)[i] as int >= 0x20
    decreases items, 0
  {
    hide Text;
    var first := Text(items[0]);
    if i < |first| {
      TextHasNoControl(items[0], i);
      assert ItemsText(items)[i] == first[i];
    } else if i > |first| {
      ItemsHaveNoControl(items[1..], i - |first| - 1);
      assert ItemsText(items)[i] == ItemsText(items[1..])[i - |first| - 1];
    }
  }

  lemma {:induction false} MembersHaveNoControl(ms: seq<Member>, i: nat)
    requires (forall k :: 0 <= k < |ms| ==> Printable(ms[k].value)) && i < |MembersText(ms)|
    ensures MembersText(ms)[i] as int >= 0x20
    decreases ms, 0
  {
    hide MemberText;
    var first := MemberText(ms[0]);
    if i < |first| {
      MemberHasNoControl(ms[0], i);
      assert MembersText(ms)[i] == first[i];
    } else if i > |first| {
      MembersHaveNoControl(ms[1..], i - |first| - 1);
      assert MembersText(ms)[i] == MembersText(ms[1..])[i - |first| - 1];
    }
  }

  lemma {:induction false} MemberHasNoControl(m: Member, i: nat)
    requires Printable(m.value) && i < |MemberText(m)|
    ensures MemberText(m)[i] as int >= 0x20
    decreases m, 2
  {
    hide Quote, Text;
    var q := Quote(m.key);
    if i < |q| {
      QuoteHasNoControl(m.key, i);
      assert MemberText(m)[i] == q[i];
    } else if i > |q| {
      TextHasNoControl(m.value, i - |q| - 1);
      assert MemberText(m)[i] == Text(m.value)[i - |q| - 1];
    }
  }

  lemma LineIsIntact(e: Event, h: Option<string>, p: Option<string>)
    requires PrintableEvent(e)
    ensures Intact(Line(e, h, p))
  {
    hide MembersText;
    var ms := Fields(e, h, p);
    EventUnhashed(e);
    assert Printable(Obj(ms));
    forall i | 0 <= i < |Line(e, h, p)|
      ensures Line(e, h, p)[i] != '\n'
    {
      TextHasNoControl(Obj(ms), i);
    }
  }

  // ---------------------------------------------------------------------

  lemma {:induction false} NewlineAtExact(line: string, rest: string)
    requires '\n' !in line
    ensures NewlineAt(line + "\n" + rest) == |line|
  {
    if line == "" {
      assert line + "\n" + rest == "\n" + rest;
    } else {
      NewlineAtExact(line[1..], rest);
      assert (line + "\n" + rest)[1..] == line[1..] + "\n" + rest;
    }
  }

  lemma SplitFirst(line: string, rest: string)
    requires Intact(line)
    ensures SplitLines(line + "\n" + rest) == [line] + SplitLines(rest)
  {
    var t := line + "\n" + rest;
    NewlineAtExact(line, rest);
    assert t[..|line|] == line && t[|line| + 1..] == rest;
  }

  function JoinLines(lines: seq<string>): string {
    if lines == [] then "" else lines[0] + "\n" + JoinLines(lines[1..])
  }

  lemma {:induction false} JoinAppend(lines: seq<string>, line: string)
    ensures JoinLines(lines + [line]) == JoinLines(lines) + (line + "\n")
  {
    if lines == [] {
      assert lines + [line] == [line] && [line][1..] == [];
      assert line + "\n" + "" == line + "\n";
    } else {
      JoinAppend(lines[1..], line);
      assert (lines + [line])[1..] == lines[1..] + [line];
    }
  }

  lemma {:induction false} LogTextIsJoin(lines: seq<string>)
    ensures LogText(lines) == JoinLines(lines)
  {
    if lines != [] {
      LogTextIsJoin(Front(lines));
      JoinAppend(Front(lines), Last(lines));
      assert lines == Front(lines) + [Last(lines)];
    }
  }

  lemma {:induction false} JoinedLinesComeBack(lines: seq<string>)
    requires forall i :: 0 <= i < |lines| ==> Intact(lines[i])
    ensures ContentLines(JoinLines(lines)) == lines
  {
    if lines != [] {
      SplitFirst(lines[0], JoinLines(lines[1..]));
      JoinedLinesComeBack(lines[1..]);
      assert !Blank(lines[0]) by {
        assert !Whitespace(lines[0][0]);
      }
      var all := SplitLines(JoinLines(lines));
      assert all[0] == lines[0] && all[1..] == SplitLines(JoinLines(lines[1..]));
      assert lines == [lines[0]] + lines[1..];
    }
  }

  /** A line as some tool might leave it: blank or not, ended by a newline alone or with a carriage return. */
  datatype Ended = Ended(line: string, crlf: bool)

  function EndedText(parts: seq<Ended>): string {
    if parts == [] then ""
    else parts[0].line + (if parts[0].crlf then "\r\n" else "\n") + EndedText(parts[1..])
  }

  function EndedLines(parts: seq<Ended>): seq<string> {
    if parts == [] then [] else (if Blank(parts[0].line) then [] else [parts[0].line]) + EndedLines(parts[1..])
  }

  lemma SplitEnded(first: Ended, rest: string)
    requires '\n' !in first.line && (first.line != "" ==> Last(first.line) != '\r')
    ensures SplitLines(first.line + (if first.crlf then "\r\n" else "\n") + rest) == [first.line] + SplitLines(rest)
  {
    var raw := first.line + (if first.crlf then "\r" else "");
    var t := raw + "\n" + rest;
    assert first.line + (if first.crlf then "\r\n" else "\n") + rest == t;
    NewlineAtExact(raw, rest);
    assert t[..|raw|] == raw && t[|raw| + 1..] == rest;
    assert DropCr(raw) == first.line;
  }

  /** Blank lines and carriage returns in front of newlines make no difference to the verifier. */
  lemma {:induction false} LineEndsDoNotMatter(parts: seq<Ended>)
    requires forall i :: 0 <= i < |parts| ==> '\n' !in parts[i].line && (parts[i].line != "" ==> Last(parts[i].line) != '\r')
    ensures ContentLines(EndedText(parts)) == EndedLines(parts)
  {
    if parts != [] {
      SplitEnded(parts[0], EndedText(parts[1..]));
      LineEndsDoNotMatter(parts[1..]);
      var all := SplitLines(EndedText(parts));
      assert all[0] == parts[0].line && all[1..] == SplitLines(EndedText(parts[1..]));
    }
  }

  ghost predicate AllPrintable(events: seq<Event>) {
    forall i :: 0 <= i < |events| ==> PrintableEvent(events[i])
  }

  lemma {:induction false} LogLineAt(hash: Hash, events: seq<Event>, i: nat)
    requires i < |events|
    ensures LogLines(hash, events)[i]
         == ChainLine(hash, events[i], if i == 0 then None else Some(LogLines(hash, events)[i - 1]))
    decreases |events|
  {
    hide ChainLine;
    if i < |events| - 1 {
      LogLineAt(hash, Front(events), i);
    }
  }

  lemma GoodLineIsAccepted(hash: Hash, parse: Parser, lines: seq<string>, i: nat, payload: string)
    requires i < |lines|
    requires var p := if i == 0 then None else Some(hash(lines[i - 1]));
             && parse(lines[i]) == HashFields(Some(hash(payload)), p)
             && StripHashFields(lines[i], Some(hash(payload)), p) == payload
    ensures CheckLine(hash, parse, lines, i) == None
  {
    hide StripHashFields;
  }

  lemma LogLineIsAccepted(hash: Hash, parse: Parser, events: seq<Event>, i: nat)
    requires HexDigests(hash) && ReadsCompactJson(parse) && AllPrintable(events) && i < |events|
    ensures CheckLine(hash, parse, LogLines(hash, events), i) == None
  {
    hide Line, LogLines, StripHashFields, ReadsCompactJson, CheckLine, PrintableEvent, Payload;
    var lines := LogLines(hash, events);
    var h := hash(Payload(events[i]));
    var p := if i == 0 then None else Some(hash(lines[i - 1]));
    LogLineAt(hash, events, i);
    LineIsRead(parse, events[i], h, p);
    StripRecoversPayload(events[i], h, p);
    GoodLineIsAccepted(hash, parse, lines, i, Payload(events[i]));
  }

  lemma LogLinesIntact(hash: Hash, events: seq<Event>)
    requires AllPrintable(events)
    ensures forall i :: 0 <= i < |events| ==> Intact(LogLines(hash, events)[i])
  {
    hide LogLines, Line, Intact, PrintableEvent;
    var lines := LogLines(hash, events);
    forall i | 0 <= i < |lines|
      ensures Intact(lines[i])
    {
      LogLineAt(hash, events, i);
      LineIsIntact(events[i], Some(hash(Payload(events[i]))), if i == 0 then None else Some(hash(lines[i - 1])));
    }
  }

  lemma LogLinesComeBack(hash: Hash, events: seq<Event>)
    requires AllPrintable(events)
    ensures ContentLines(LogText(LogLines(hash, events))) == LogLines(hash, events)
  {
    hide *;
    LogTextIsJoin(LogLines(hash, events));
    LogLinesIntact(hash, events);
    JoinedLinesComeBack(LogLines(hash, events));
  }

  lemma AllLinesAccepted(hash: Hash, parse: Parser, events: seq<Event>)
    requires HexDigests(hash) && ReadsCompactJson(parse) && AllPrintable(events)
    ensures Accepted(hash, parse, LogLines(hash, events))
  {
    hide CheckLine, LogLines, HexDigests, ReadsCompactJson, AllPrintable;
    forall i: nat | i < |events|
      ensures CheckLine(hash, parse, LogLines(hash, events), i) == None
    {
      LogLineIsAccepted(hash, parse, events, i);
    }
  }

  /**
   Round trip: every sequence of events that one writer session puts into an empty file verifies,
   with exactly that many events, whatever the events contain.
   */
  lemma WrittenLogVerifies(hash: Hash, parse: Parser, events: seq<Event>)
    requires HexDigests(hash) && ReadsCompactJson(parse) && AllPrintable(events)
    ensures IsVerdict(hash, parse, ContentLines(LogText(LogLines(hash, events))), Valid(|events|))
  {
    hide CheckLine, LogLines, ContentLines, HexDigests, ReadsCompactJson, AllPrintable, LogText;
    LogLinesComeBack(hash, events);
    AllLinesAccepted(hash, parse, events);
  }

  /** The whole path: an intact writer's file is read back by the verifier as valid. */
  method WriteThenVerify(writer: AuditWriter, parse: Parser) returns (v: Verdict)
    requires writer.Valid() && writer.intact && writer.found == ""
    requires HexDigests(writer.hash) && ReadsCompactJson(parse) && AllPrintable(writer.events)
    ensures v == Valid(writer.eventCount)
  {
    v := VerifyChain(writer.hash, parse, writer.file);
    assert "" + LogText(LogLines(writer.hash, writer.events)) == LogText(LogLines(writer.hash, writer.events));
    WrittenLogVerifies(writer.hash, parse, writer.events);
    VerdictIsUnique(writer.hash, parse, ContentLines(writer.file), v, Valid(writer.eventCount));
  }

  // ---------------------------------------------------------------------
  // A reopened file
  // ---------------------------------------------------------------------

  lemma {:induction false} LogTextConcat(a: seq<string>, b: seq<string>)
    ensures LogText(a + b) == LogText(a) + LogText(b)
    decreases |b|
  {
    if b == [] {
      assert a + b == a && LogText(a) + "" == LogText(a);
    } else {
      LogTextConcat(a, Front(b));
      assert Front(a + b) == a + Front(b) && Last(a + b) == Last(b);
    }
  }

  lemma CheckedAlike(hash: Hash, parse: Parser, a: seq<string>, b: seq<string>, i: nat)
    requires i < |a|
    ensures CheckLine(hash, parse, a + b, i) == CheckLine(hash, parse, a, i)
  {
    hide StripHashFields;
  }

  /** The file after several writer sessions, one after the other. */
  function SessionsText(hash: Hash, sessions: seq<seq<Event>>): string {
    if sessions == [] then "" else LogText(LogLines(hash, sessions[0])) + SessionsText(hash, sessions[1..])
  }

  function SessionsLines(hash: Hash, sessions: seq<seq<Event>>): seq<string> {
    if sessions == [] then [] else LogLines(hash, sessions[0]) + SessionsLines(hash, sessions[1..])
  }

  /** The sessions that wrote anything. */
  function Wrote(sessions: seq<seq<Event>>): seq<seq<Event>> {
    if sessions == [] then [] else (if sessions[0] == [] then [] else [sessions[0]]) + Wrote(sessions[1..])
  }

  ghost predicate SessionsPrintable(sessions: seq<seq<Event>>) {
    forall i :: 0 <= i < |sessions| ==> AllPrintable(sessions[i])
  }

  lemma {:induction false} SessionsTextIsLines(hash: Hash, sessions: seq<seq<Event>>)
    ensures SessionsText(hash, sessions) == LogText(SessionsLines(hash, sessions))
  {
    hide LogLines;
    if sessions != [] {
      SessionsTextIsLines(hash, sessions[1..]);
      LogTextConcat(LogLines(hash, sessions[0]), SessionsLines(hash, sessions[1..]));
    }
  }

  lemma {:induction false} SessionsIntact(hash: Hash, sessions: seq<seq<Event>>)
    requires SessionsPrintable(sessions)
    ensures forall i :: 0 <= i < |SessionsLines(hash, sessions)| ==> Intact(SessionsLines(hash, sessions)[i])
  {
    hide LogLines, Intact, AllPrintable;
    if sessions != [] {
      SessionsIntact(hash, sessions[1..]);
      LogLinesIntact(hash, sessions[0]);
    }
  }

  lemma SessionsComeBack(hash: Hash, sessions: seq<seq<Event>>)
    requires SessionsPrintable(sessions)
    ensures ContentLines(SessionsText(hash, sessions)) == SessionsLines(hash, sessions)
  {
    hide *;
    SessionsTextIsLines(hash, sessions);
    LogTextIsJoin(SessionsLines(hash, sessions));
    SessionsIntact(hash, sessions);
    JoinedLinesComeBack(SessionsLines(hash, sessions));
  }

  lemma {:induction false} SilentSessions(hash: Hash, sessions: seq<seq<Event>>)
    ensures SessionsLines(hash, sessions) == SessionsLines(hash, Wrote(sessions))
    ensures forall w :: w in Wrote(sessions) ==> w in sessions && w != []
  {
    hide LogLines;
    if sessions != [] {
      SilentSessions(hash, sessions[1..]);
      var w := Wrote(sessions);
      if sessions[0] == [] {
        assert w == Wrote(sessions[1..]);
        assert LogLines(hash, sessions[0]) + SessionsLines(hash, sessions[1..]) == SessionsLines(hash, sessions[1..]);
      } else {
        assert w[1..] == Wrote(sessions[1..]);
      }
    }
  }

  /** The first line of a session never links back, so behind another line it breaks the chain. */
  lemma RestartBreaks(hash: Hash, parse: Parser, lines: seq<string>, events: seq<Event>)
    requires ReadsCompactJson(parse) && AllPrintable(events) && events != [] && lines != []
    ensures CheckLine(hash, parse, lines + LogLines(hash, events), |lines|)
         == Some(Broken(|lines| + 1, Some(hash(Last(lines))), None, HashPrevMismatch))
  {
    hide LogLines, Line, ReadsCompactJson, StripHashFields, Payload;
    LogLineAt(hash, events, 0);
    LineIsRead(parse, events[0], hash(Payload(events[0])), None);
    assert (lines + LogLines(hash, events))[|lines|] == LogLines(hash, events)[0];
    assert (lines + LogLines(hash, events))[|lines| - 1] == Last(lines);
  }

  /** Behind an accepted, nonempty log a new session is reported at its first line, whatever follows. */
  lemma RestartVerdict(hash: Hash, parse: Parser, x: seq<string>, b: seq<Event>, rest: seq<string>)
    requires ReadsCompactJson(parse) && AllPrintable(b) && Accepted(hash, parse, x) && x != [] && b != []
    ensures IsVerdict(hash, parse, x + LogLines(hash, b) + rest,
                      Broken(|x| + 1, Some(hash(Last(x))), None, HashPrevMismatch))
  {
    hide CheckLine, LogLines, ReadsCompactJson, AllPrintable;
    var y := LogLines(hash, b);
    RestartBreaks(hash, parse, x, b);
    CheckedAlike(hash, parse, x + y, rest, |x|);
    forall i: nat | i < |x|
      ensures CheckLine(hash, parse, x + y + rest, i) == None
    {
      CheckedAlike(hash, parse, x, y, i);
      CheckedAlike(hash, parse, x + y, rest, i);
    }
  }

  /** What the verifier says of a file, given the sessions that wrote anything. */
  function SessionsVerdict(hash: Hash, wrote: seq<seq<Event>>): Verdict
    requires forall i :: 0 <= i < |wrote| ==> wrote[i] != []
  {
    if wrote == [] then Valid(0)
    else if |wrote| == 1 then Valid(|wrote[0]|)
    else Broken(|wrote[0]| + 1, Some(hash(Last(LogLines(hash, wrote[0])))), None, HashPrevMismatch)
  }

  lemma SessionsHead(hash: Hash, sessions: seq<seq<Event>>)
    ensures sessions == [] ==> SessionsLines(hash, sessions) == []
    ensures sessions != [] ==> SessionsLines(hash, sessions) == LogLines(hash, sessions[0]) + SessionsLines(hash, sessions[1..])
  {
    hide LogLines;
  }

  lemma Associates<T>(x: seq<T>, y: seq<T>, z: seq<T>)
    ensures x + (y + z) == x + y + z
  {
  }

  lemma SessionsUnfold(hash: Hash, wrote: seq<seq<Event>>)
    ensures |wrote| == 0 ==> SessionsLines(hash, wrote) == []
    ensures |wrote| == 1 ==> SessionsLines(hash, wrote) == LogLines(hash, wrote[0])
    ensures |wrote| >= 2 ==>
              SessionsLines(hash, wrote) == LogLines(hash, wrote[0]) + LogLines(hash, wrote[1]) + SessionsLines(hash, wrote[2..])
  {
    hide LogLines, SessionsLines;
    SessionsHead(hash, wrote);
    if |wrote| == 1 {
      SessionsHead(hash, wrote[1..]);
      assert LogLines(hash, wrote[0]) + [] == LogLines(hash, wrote[0]);
    } else if |wrote| >= 2 {
      SessionsHead(hash, wrote[1..]);
      assert wrote[1..][0] == wrote[1] && wrote[1..][1..] == wrote[2..];
      Associates(LogLines(hash, wrote[0]), LogLines(hash, wrote[1]), SessionsLines(hash, wrote[2..]));
    }
  }

  lemma WroteVerdict(hash: Hash, parse: Parser, wrote: seq<seq<Event>>)
    requires HexDigests(hash) && ReadsCompactJson(parse) && SessionsPrintable(wrote)
    requires forall i :: 0 <= i < |wrote| ==> wrote[i] != []
    ensures IsVerdict(hash, parse, SessionsLines(hash, wrote), SessionsVerdict(hash, wrote))
  {
    hide CheckLine, LogLines, SessionsLines, HexDigests, ReadsCompactJson, AllPrintable;
    SessionsUnfold(hash, wrote);
    if wrote != [] {
      AllLinesAccepted(hash, parse, wrote[0]);
      if |wrote| >= 2 {
        hide IsVerdict;
        RestartVerdict(hash, parse, LogLines(hash, wrote[0]), wrote[1], SessionsLines(hash, wrote[2..]));
      }
    }
  }

  /**
   A file that any number of writer sessions wrote one after the other verifies if and only if at
   most one of them wrote anything; otherwise the verifier reports the first line of the second
   session that did.
   */
  lemma ReopenedLog(hash: Hash, parse: Parser, sessions: seq<seq<Event>>)
    requires HexDigests(hash) && ReadsCompactJson(parse) && SessionsPrintable(sessions)
    ensures forall i :: 0 <= i < |Wrote(sessions)| ==> Wrote(sessions)[i] != []
    ensures IsVerdict(hash, parse, ContentLines(SessionsText(hash, sessions)), SessionsVerdict(hash, Wrote(sessions)))
  {
    hide IsVerdict, ContentLines, SessionsText, SessionsLines, SessionsVerdict, HexDigests, ReadsCompactJson, AllPrintable, Wrote;
    SessionsComeBack(hash, sessions);
    SilentSessions(hash, sessions);
    assert forall i :: 0 <= i < |Wrote(sessions)| ==> Wrote(sessions)[i] in Wrote(sessions);
    WroteVerdict(hash, parse, Wrote(sessions));
  }
}
