/**
 Compact JSON text: string escaping as in section 7 of RFC 8259 with the short escapes that
 serde_json, JSON.stringify and the Python shim all use, printing without whitespace, and a parser
 that inverts it. Parsing back is what makes the text unambiguous.
 */
module JsonText {
  import opened Wrappers
  import opened Json

  const BACKSPACE := '\U{0008}'
  const FORM_FEED := '\U{000C}'

  // ---------------------------------------------------------------------
  // Strings
  // ---------------------------------------------------------------------

  function HexDigit(n: nat): (c: char)
    requires n < 16
    ensures HexValue(c) == Some(n)
  {
    if n < 10 then ('0' as int + n) as char else ('a' as int + (n - 10)) as char
  }

  function HexValue(c: char): (r: Option<nat>)
    ensures r.Some? ==> r.value < 16
  {
    if '0' <= c <= '9' then Some(c as int - '0' as int)
    else if 'a' <= c <= 'f' then Some(c as int - 'a' as int + 10)
    else None
  }

  function EscapeChar(c: char): string {
    if c == '\"' then "\\\""
    else if c == '\\' then "\\\\"
    else if c == BACKSPACE then "\\b"
    else if c == FORM_FEED then "\\f"
    else if c == '\n' then "\\n"
    else if c == '\r' then "\\r"
    else if c == '\t' then "\\t"
    else if c as int < 0x20 then "\\u00" + [HexDigit(c as int / 16), HexDigit(c as int % 16)]
    else [c]
  }

  /**
   The escape of each character, as section 3.2.2.2 of RFC 8785 asks: the two-character forms where
   there is one, lowercase hexadecimal for the other control characters, and everything else as it is.
   */
  lemma EscapesMean(c: char)
    ensures EscapeChar('\U{0008}') == ['\\', 'b'] && EscapeChar('\U{0009}') == ['\\', 't'] && EscapeChar('\U{000A}') == ['\\', 'n']
    ensures EscapeChar('\U{000C}') == ['\\', 'f'] && EscapeChar('\U{000D}') == ['\\', 'r']
    ensures EscapeChar('\U{0022}') == ['\\', '\U{0022}'] && EscapeChar('\U{005C}') == ['\\', '\\']
    ensures c as int < 0x20 && c as int !in {8, 9, 10, 12, 13} ==>
              exists hi, lo :: EscapeChar(c) == ['\\', 'u', '0', '0', hi, lo] && LowerHex(hi, c as int / 16) && LowerHex(lo, c as int % 16)
    ensures c as int >= 0x20 && c != '\U{0022}' && c != '\U{005C}' ==> EscapeChar(c) == [c]
  {
    if c as int < 0x20 && c as int !in {8, 9, 10, 12, 13} {
      var hi, lo := HexDigit(c as int / 16), HexDigit(c as int % 16);
      assert EscapeChar(c) == ['\\', 'u', '0', '0', hi, lo];
      assert LowerHex(hi, c as int / 16) && LowerHex(lo, c as int % 16);
    }
  }

  /** The lowercase digit for a number. */
  predicate LowerHex(c: char, n: int) {
    0 <= n < 16 && c == "0123456789abcdef"[n]
  }

  function Escape(s: string): string {
    if s == "" then "" else EscapeChar(s[0]) + Escape(s[1..])
  }

  function Quote(s: string): string {
    "\"" + Escape(s) + "\""
  }

  /** What a two-character escape stands for. */
  function ShortEscape(c: char): Option<char> {
    match c
    case '\"' => Some('\"')
    case '\\' => Some('\\')
    case 'b' => Some(BACKSPACE)
    case 'f' => Some(FORM_FEED)
    case 'n' => Some('\n')
    case 'r' => Some('\r')
    case 't' => Some('\t')
    case _ => None
  }

  /** One character of a string body and how much text it took. */
  function ReadChar(t: string): (r: Option<(char, nat)>)
    ensures r.Some? ==> 1 <= r.value.1 <= |t|
  {
    if t == "" || t[0] == '\"' || t[0] as int < 0x20 then None
    else if t[0] != '\\' then Some((t[0], 1))
    else if |t| < 2 then None
    else if t[1] != 'u' then
      var c := ShortEscape(t[1]);
      if c.None? then None else Some((c.value, 2))
    else if |t| < 6 || t[2] != '0' || t[3] != '0' then None
    else
      var hi, lo := HexValue(t[4]), HexValue(t[5]);
      if hi.None? || lo.None? then None else Some(((16 * hi.value + lo.value) as char, 6))
  }

  /** The body of a string up to its closing quote, and the text after it. */
  function ReadString(t: string): (r: Option<(string, string)>)
    ensures r.Some? ==> |r.value.1| < |t|
    decreases |t|
  {
    if t != "" && t[0] == '\"' then Some(("", t[1..]))
    else
      var c := ReadChar(t);
      if c.None? then None
      else
        var rest := ReadString(t[c.value.1..]);
        if rest.None? then None else Some(([c.value.0] + rest.value.0, rest.value.1))
  }

  /** Escapes are prefix-free: a reader knows where each one ends. */
  lemma ReadEscaped(c: char, rest: string)
    ensures ReadChar(EscapeChar(c) + rest) == Some((c, |EscapeChar(c)|))
  {
    var t := EscapeChar(c) + rest;
    assert t[..|EscapeChar(c)|] == EscapeChar(c);
  }

  lemma ReadStringStep(t: string, c: char, e: string, tail: string)
    requires t == e + tail && ReadChar(t) == Some((c, |e|)) && ReadString(tail).Some?
    ensures ReadString(t) == Some(([c] + ReadString(tail).value.0, ReadString(tail).value.1))
  {
    assert t[|e|..] == tail;
  }

  lemma {:induction false} ReadQuoted(s: string, rest: string)
    ensures ReadString(Escape(s) + "\"" + rest) == Some((s, rest))
    decreases |s|
  {
    hide ReadChar, EscapeChar;
    var t := Escape(s) + "\"" + rest;
    if s == "" {
      assert t == "\"" + rest;
    } else {
      var e := EscapeChar(s[0]);
      var tail := Escape(s[1..]) + "\"" + rest;
      assert t == e + tail;
      ReadEscaped(s[0], tail);
      ReadQuoted(s[1..], rest);
      ReadStringStep(t, s[0], e, tail);
      assert [s[0]] + s[1..] == s;
    }
  }

  /** A quote inside an escaped string always follows a backslash, and no control character survives. */
  lemma {:induction false} EscapedChars(s: string, i: nat)
    requires i < |Escape(s)|
    ensures Escape(s)[i] as int >= 0x20
    ensures Escape(s)[i] == '\"' ==> i > 0 && Escape(s)[i - 1] == '\\'
    decreases |s|
  {
    var e := EscapeChar(s[0]);
    assert Escape(s) == e + Escape(s[1..]);
    if i < |e| {
      EscapedCharOk(s[0], i);
      assert Escape(s)[i] == e[i];
    } else {
      EscapedChars(s[1..], i - |e|);
      assert Escape(s)[i] == Escape(s[1..])[i - |e|];
      if i > |e| {
        assert Escape(s)[i - 1] == Escape(s[1..])[i - 1 - |e|];
      }
    }
  }

  lemma EscapedCharOk(c: char, i: nat)
    requires i < |EscapeChar(c)|
    ensures EscapeChar(c)[i] as int >= 0x20
    ensures EscapeChar(c)[i] == '\"' ==> i > 0 && EscapeChar(c)[i - 1] == '\\'
  {
  }

  // ---------------------------------------------------------------------
  // Values
  // ---------------------------------------------------------------------

  predicate NumberChar(c: char) {
    '0' <= c <= '9' || c == '+' || c == '-' || c == '.' || c == 'e' || c == 'E'
  }

  predicate NumberLiteral(t: string) {
    t != "" && (t[0] == '-' || '0' <= t[0] <= '9') && forall i :: 0 <= i < |t| ==> NumberChar(t[i])
  }

  /** Every number of the value has a printable literal. */
  predicate Printable(v: Json)
    decreases v
  {
    match v
    case Num(t) => NumberLiteral(t)
    case Arr(items) => forall i :: 0 <= i < |items| ==> Printable(items[i])
    case Obj(ms) => forall i :: 0 <= i < |ms| ==> Printable(ms[i].value)
    case _ => true
  }

  function Text(v: Json): string
    decreases v, 1
  {
    match v
    case Null => "null"
    case Bool(b) => if b then "true" else "false"
    case Num(t) => t
    case Str(s) => Quote(s)
    case Arr(items) => "[" + ItemsText(items) + "]"
    case Obj(ms) => "{" + MembersText(ms) + "}"
  }

  function ItemsText(items: seq<Json>): string
    decreases items, 0
  {
    if items == [] then ""
    else Text(items[0]) + (if |items| == 1 then "" else "," + ItemsText(items[1..]))
  }

  function MemberText(m: Member): string
    decreases m, 2
  {
    Quote(m.key) + ":" + Text(m.value)
  }

  function MembersText(ms: seq<Member>): string
    decreases ms, 0
  {
    if ms == [] then ""
    else MemberText(ms[0]) + (if |ms| == 1 then "" else "," + MembersText(ms[1..]))
  }

  // ---------------------------------------------------------------------
  // The parser
  // ---------------------------------------------------------------------

  function NumberLength(t: string): (n: nat)
    ensures n <= |t| && (forall i :: 0 <= i < n ==> NumberChar(t[i])) && (n < |t| ==> !NumberChar(t[n]))
  {
    if t == "" || !NumberChar(t[0]) then 0 else 1 + NumberLength(t[1..])
  }

  function ParseValue(t: string): (r: Option<(Json, string)>)
    ensures r.Some? ==> |r.value.1| < |t|
    decreases |t|, 0
  {
    if t == "" then None
    else if t[0] == 'n' then (if "null" <= t then Some((Null, t[4..])) else None)
    else if t[0] == 't' then (if "true" <= t then Some((Bool(true), t[4..])) else None)
    else if t[0] == 'f' then (if "false" <= t then Some((Bool(false), t[5..])) else None)
    else if t[0] == '\"' then
      var s := ReadString(t[1..]);
      if s.None? then None else Some((Str(s.value.0), s.value.1))
    else if t[0] == '[' then
      if |t| > 1 && t[1] == ']' then Some((Arr([]), t[2..]))
      else
        var items := ParseItems(t[1..]);
        if items.None? then None else Some((Arr(items.value.0), items.value.1))
    else if t[0] == '{' then
      if |t| > 1 && t[1] == '}' then Some((Obj([]), t[2..]))
      else
        var ms := ParseMembers(t[1..]);
        if ms.None? then None else Some((Obj(ms.value.0), ms.value.1))
    else if t[0] == '-' || '0' <= t[0] <= '9' then
      var n := NumberLength(t);
      Some((Num(t[..n]), t[n..]))
    else None
  }

  function ParseItems(t: string): (r: Option<(seq<Json>, string)>)
    ensures r.Some? ==> |r.value.1| < |t|
    decreases |t|, 1
  {
    var first := ParseValue(t);
    if first.None? || first.value.1 == "" then None
    else
      var rest := first.value.1;
      if rest[0] == ']' then Some(([first.value.0], rest[1..]))
      else if rest[0] == ',' then
        var more := ParseItems(rest[1..]);
        if more.None? then None else Some(([first.value.0] + more.value.0, more.value.1))
      else None
  }

  function ParseMember(t: string): (r: Option<(Member, string)>)
    ensures r.Some? ==> |r.value.1| < |t|
    decreases |t|, 0
  {
    if t == "" || t[0] != '\"' then None
    else
      var key := ReadString(t[1..]);
      if key.None? || key.value.1 == "" || key.value.1[0] != ':' then None
      else
        var value := ParseValue(key.value.1[1..]);
        if value.None? then None else Some((Member(key.value.0, value.value.0), value.value.1))
  }

  function ParseMembers(t: string): (r: Option<(seq<Member>, string)>)
    ensures r.Some? ==> |r.value.1| < |t|
    decreases |t|, 1
  {
    var first := ParseMember(t);
    if first.None? || first.value.1 == "" then None
    else
      var rest := first.value.1;
      if rest[0] == '}' then Some(([first.value.0], rest[1..]))
      else if rest[0] == ',' then
        var more := ParseMembers(rest[1..]);
        if more.None? then None else Some(([first.value.0] + more.value.0, more.value.1))
      else None
  }

  // ---------------------------------------------------------------------
  // Parsing inverts printing
  // ---------------------------------------------------------------------

  /** The text after a value: it does not continue a number. */
  predicate Follows(rest: string) {
    rest != "" ==> !NumberChar(rest[0])
  }

  lemma {:induction false} NumberLengthExact(lit: string, rest: string)
    requires forall i :: 0 <= i < |lit| ==> NumberChar(lit[i])
    requires Follows(rest)
    ensures NumberLength(lit + rest) == |lit|
  {
    if lit == "" {
      assert lit + rest == rest;
    } else {
      NumberLengthExact(lit[1..], rest);
      assert (lit + rest)[1..] == lit[1..] + rest;
    }
  }

  // One step of the parser for each kind of value.

  lemma ParseWord(t: string, rest: string)
    ensures t == "null" + rest ==> ParseValue(t) == Some((Null, rest))
    ensures t == "true" + rest ==> ParseValue(t) == Some((Bool(true), rest))
    ensures t == "false" + rest ==> ParseValue(t) == Some((Bool(false), rest))
  {
    if t == "null" + rest || t == "true" + rest {
      assert t[4..] == rest;
    } else if t == "false" + rest {
      assert t[5..] == rest;
    }
  }

  lemma ParseNum(lit: string, rest: string)
    requires NumberLiteral(lit) && Follows(rest)
    ensures ParseValue(lit + rest) == Some((Num(lit), rest))
  {
    var t := lit + rest;
    assert t[0] == lit[0];
    NumberLengthExact(lit, rest);
    assert t[..|lit|] == lit && t[|lit|..] == rest;
  }

  lemma ParseStr(s: string, rest: string)
    ensures ParseValue(Quote(s) + rest) == Some((Str(s), rest))
  {
    hide Escape, ReadString;
    var t := Quote(s) + rest;
    assert t[0] == '\"' && t[1..] == Escape(s) + "\"" + rest;
    ReadQuoted(s, rest);
  }

  lemma ParseArr(t: string, items: seq<Json>, rest: string)
    requires |t| > 1 && t[0] == '[' && t[1] != ']' && ParseItems(t[1..]) == Some((items, rest))
    ensures ParseValue(t) == Some((Arr(items), rest))
  {
  }

  lemma ParseObj(t: string, ms: seq<Member>, rest: string)
    requires |t| > 1 && t[0] == '{' && t[1] != '}' && ParseMembers(t[1..]) == Some((ms, rest))
    ensures ParseValue(t) == Some((Obj(ms), rest))
  {
  }

  lemma ParseEmpty(t: string, rest: string)
    ensures t == "[" + "]" + rest ==> ParseValue(t) == Some((Arr([]), rest))
    ensures t == "{" + "}" + rest ==> ParseValue(t) == Some((Obj([]), rest))
  {
    if t == "[" + "]" + rest || t == "{" + "}" + rest {
      assert t[2..] == rest;
    }
  }

  lemma ParseMemberStep(t: string, key: string, after: string, value: Json, rest: string)
    requires t != "" && t[0] == '\"' && ReadString(t[1..]) == Some((key, after))
    requires after != "" && after[0] == ':' && ParseValue(after[1..]) == Some((value, rest))
    ensures ParseMember(t) == Some((Member(key, value), rest))
  {
    hide ParseValue, ReadString;
  }

  lemma {:induction false} ParseText(v: Json, rest: string)
    requires Printable(v) && Follows(rest)
    ensures ParseValue(Text(v) + rest) == Some((v, rest))
    decreases v, 1
  {
    hide ParseValue, ParseItems, ParseMembers;
    var t := Text(v) + rest;
    match v
    case Null => ParseWord(t, rest);
    case Bool(_) => ParseWord(t, rest);
    case Num(lit) => ParseNum(lit, rest);
    case Str(s) => ParseStr(s, rest);
    case Arr(items) => ParseArrText(items, rest);
    case Obj(ms) => ParseObjText(ms, rest);
  }

  lemma {:induction false} ParseArrText(items: seq<Json>, rest: string)
    requires forall i :: 0 <= i < |items| ==> Printable(items[i])
    ensures ParseValue("[" + ItemsText(items) + "]" + rest) == Some((Arr(items), rest))
    decreases items, 1
  {
    hide ParseValue, ParseItems, Text;
    var t := "[" + ItemsText(items) + "]" + rest;
    if items == [] {
      assert ItemsText(items) == "";
      assert t == "[" + "]" + rest;
      ParseEmpty(t, rest);
    } else {
      ParseItemsText(items, rest);
      assert t[1..] == ItemsText(items) + "]" + rest;
      TextStarts(items[0]);
      assert t[1] == Text(items[0])[0];
      ParseArr(t, items, rest);
    }
  }

  lemma {:induction false} ParseObjText(ms: seq<Member>, rest: string)
    requires forall i :: 0 <= i < |ms| ==> Printable(ms[i].value)
    ensures ParseValue("{" + MembersText(ms) + "}" + rest) == Some((Obj(ms), rest))
    decreases ms, 1
  {
    hide ParseValue, ParseMembers, Text, Escape;
    var t := "{" + MembersText(ms) + "}" + rest;
    if ms == [] {
      assert MembersText(ms) == "";
      assert t == "{" + "}" + rest;
      ParseEmpty(t, rest);
    } else {
      ParseMembersText(ms, rest);
      assert t[1..] == MembersText(ms) + "}" + rest;
      assert t[1] == '\"';
      ParseObj(t, ms, rest);
    }
  }

  /** No value starts with a closing bracket. */
  lemma TextStarts(v: Json)
    requires Printable(v)
    ensures Text(v) != "" && Text(v)[0] != ']'
  {
  }

  lemma ParseItemsStep(t: string, v: Json, tail: string, rest: string)
    requires ParseValue(t) == Some((v, tail))
    ensures tail == "]" + rest ==> ParseItems(t) == Some(([v], rest))
    ensures tail == "," + rest && ParseItems(rest).Some? ==>
              ParseItems(t) == Some(([v] + ParseItems(rest).value.0, ParseItems(rest).value.1))
  {
    hide ParseValue;
    if tail == "]" + rest || tail == "," + rest {
      assert tail[1..] == rest;
    }
  }

  lemma ParseMembersStep(t: string, m: Member, tail: string, rest: string)
    requires ParseMember(t) == Some((m, tail))
    ensures tail == "}" + rest ==> ParseMembers(t) == Some(([m], rest))
    ensures tail == "," + rest && ParseMembers(rest).Some? ==>
              ParseMembers(t) == Some(([m] + ParseMembers(rest).value.0, ParseMembers(rest).value.1))
  {
    hide ParseMember;
    if tail == "}" + rest || tail == "," + rest {
      assert tail[1..] == rest;
    }
  }

  lemma ItemsRegrouped(items: seq<Json>, end: string)
    requires items != []
    ensures ItemsText(items) + end
         == if |items| == 1 then Text(items[0]) + end else Text(items[0]) + ("," + (ItemsText(items[1..]) + end))
  {
    hide Text;
  }

  lemma MembersRegrouped(ms: seq<Member>, end: string)
    requires ms != []
    ensures MembersText(ms) + end
         == if |ms| == 1 then MemberText(ms[0]) + end else MemberText(ms[0]) + ("," + (MembersText(ms[1..]) + end))
  {
    hide MemberText;
  }

  lemma {:induction false} ParseItemsText(items: seq<Json>, rest: string)
    requires items != [] && forall i :: 0 <= i < |items| ==> Printable(items[i])
    ensures ParseItems(ItemsText(items) + "]" + rest) == Some((items, rest))
    decreases items, 0
  {
    ItemsRegrouped(items, "]" + rest);
    hide Text, ItemsText, ParseValue, ParseItems;
    var t := ItemsText(items) + "]" + rest;
    assert t == ItemsText(items) + ("]" + rest);
    if |items| == 1 {
      ParseText(items[0], "]" + rest);
      ParseItemsStep(t, items[0], "]" + rest, rest);
      assert [items[0]] == items;
    } else {
      var more := ItemsText(items[1..]) + "]" + rest;
      assert more == ItemsText(items[1..]) + ("]" + rest);
      ParseText(items[0], "," + more);
      ParseItemsText(items[1..], rest);
      ParseItemsStep(t, items[0], "," + more, more);
      assert [items[0]] + items[1..] == items;
    }
  }

  lemma {:induction false} ParseMemberText(m: Member, rest: string)
    requires Printable(m.value) && Follows(rest)
    ensures ParseMember(MemberText(m) + rest) == Some((m, rest))
    decreases m, 2
  {
    hide ParseMember, ParseValue, ReadString, Escape, Text;
    var t := MemberText(m) + rest;
    var after := ":" + Text(m.value) + rest;
    assert t[0] == '\"' && t[1..] == Escape(m.key) + "\"" + after;
    ReadQuoted(m.key, after);
    assert after[1..] == Text(m.value) + rest;
    ParseText(m.value, rest);
    ParseMemberStep(t, m.key, after, m.value, rest);
  }

  lemma {:induction false} ParseMembersText(ms: seq<Member>, rest: string)
    requires ms != [] && forall i :: 0 <= i < |ms| ==> Printable(ms[i].value)
    ensures ParseMembers(MembersText(ms) + "}" + rest) == Some((ms, rest))
    decreases ms, 0
  {
    MembersRegrouped(ms, "}" + rest);
    hide MemberText, MembersText, ParseMember, ParseMembers;
    var t := MembersText(ms) + "}" + rest;
    assert t == MembersText(ms) + ("}" + rest);
    if |ms| == 1 {
      ParseMemberText(ms[0], "}" + rest);
      ParseMembersStep(t, ms[0], "}" + rest, rest);
      assert [ms[0]] == ms;
    } else {
      var more := MembersText(ms[1..]) + "}" + rest;
      assert more == MembersText(ms[1..]) + ("}" + rest);
      ParseMemberText(ms[0], "," + more);
      ParseMembersText(ms[1..], rest);
      ParseMembersStep(t, ms[0], "," + more, more);
      assert [ms[0]] + ms[1..] == ms;
    }
  }

  /** A complete document: one value and nothing after it. */
  function Parse(t: string): Option<Json> {
    var r := ParseValue(t);
    if r.Some? && r.value.1 == "" then Some(r.value.0) else None
  }

  /** Round trip: printing loses nothing. */
  lemma ParseInvertsText(v: Json)
    requires Printable(v)
    ensures Parse(Text(v)) == Some(v)
  {
    ParseText(v, "");
    assert Text(v) + "" == Text(v);
  }

  lemma TextIsInjective(a: Json, b: Json)
    requires Printable(a) && Printable(b) && Text(a) == Text(b)
    ensures a == b
  {
    ParseInvertsText(a);
    ParseInvertsText(b);
  }
}
