/**
 The RFC 8785 canonical serialisers of the Python shim and the TypeScript client, which differ only in
 how they order object keys. Main results: within one serialiser, equal text means equal values up to
 member order and conversely; and the two serialisers agree on a value exactly when the key orders
 agree on every object in it.
 */
module Jcs {
  import opened Wrappers
  import opened KeyOrder
  import opened JsonText
  import opened Decimal
  import Json

  datatype Value =
    | Null
    | Bool(b: bool)
    | Int(n: int)
    | Str(s: string)
    | List(items: seq<Value>)
    | Dict(entries: seq<Entry>)

  datatype Entry = Entry(key: string, value: Value)

  // ---------------------------------------------------------------------
  // Sorting members
  // ---------------------------------------------------------------------

  function Size(v: Value): nat
    decreases v, 1
  {
    match v
    case List(items) => 1 + SizeItems(items)
    case Dict(entries) => 1 + SizeEntries(entries)
    case _ => 1
  }

  function SizeItems(items: seq<Value>): nat
    decreases items, 0
  {
    if items == [] then 0 else 1 + Size(items[0]) + SizeItems(items[1..])
  }

  function SizeEntries(entries: seq<Entry>): nat
    decreases entries, 0
  {
    if entries == [] then 0 else 1 + Size(entries[0].value) + SizeEntries(entries[1..])
  }

  function Insert(o: Order, e: Entry, s: seq<Entry>): (r: seq<Entry>)
    ensures |r| == |s| + 1
    ensures SizeEntries(r) == 1 + Size(e.value) + SizeEntries(s)
    ensures forall x :: x in r <==> x == e || x in s
  {
    if s == [] || KeyLess(o, e.key, s[0].key) then
      assert ([e] + s)[1..] == s;
      [e] + s
    else
      var rest := Insert(o, e, s[1..]);
      assert ([s[0]] + rest)[1..] == rest;
      [s[0]] + rest
  }

  function SortEntries(o: Order, es: seq<Entry>): (r: seq<Entry>)
    ensures |r| == |es| && SizeEntries(r) == SizeEntries(es)
    ensures forall x :: x in r <==> x in es
  {
    if es == [] then [] else Insert(o, es[0], SortEntries(o, es[1..]))
  }

  ghost predicate DistinctKeys(es: seq<Entry>) {
    forall i, j :: 0 <= i < j < |es| ==> es[i].key != es[j].key
  }

  ghost predicate Sorted(o: Order, es: seq<Entry>) {
    forall i, j :: 0 <= i < j < |es| ==> KeyLess(o, es[i].key, es[j].key)
  }

  lemma {:induction false} InsertKeepsSorted(o: Order, e: Entry, s: seq<Entry>)
    requires Sorted(o, s) && forall i :: 0 <= i < |s| ==> s[i].key != e.key
    ensures Sorted(o, Insert(o, e, s))
  {
    hide KeyLess;
    if s != [] {
      KeyOrderIsTotal(o, e.key, s[0].key, e.key);
      if KeyLess(o, e.key, s[0].key) {
        forall j | 0 <= j < |s|
          ensures KeyLess(o, e.key, s[j].key)
        {
          KeyOrderIsTotal(o, e.key, s[0].key, s[j].key);
        }
      } else {
        InsertKeepsSorted(o, e, s[1..]);
        var rest := Insert(o, e, s[1..]);
        forall j | 0 <= j < |rest|
          ensures KeyLess(o, s[0].key, rest[j].key)
        {
          assert rest[j] in rest;
          if rest[j] != e {
            var k :| 0 <= k < |s[1..]| && s[1..][k] == rest[j];
            assert s[k + 1] == rest[j];
          }
        }
      }
    }
  }

  lemma {:induction false} SortIsSorted(o: Order, es: seq<Entry>)
    requires DistinctKeys(es)
    ensures Sorted(o, SortEntries(o, es))
  {
    if es != [] {
      SortIsSorted(o, es[1..]);
      var rest := SortEntries(o, es[1..]);
      forall i | 0 <= i < |rest|
        ensures rest[i].key != es[0].key
      {
        assert rest[i] in rest;
        var k :| 0 <= k < |es[1..]| && es[1..][k] == rest[i];
        assert es[k + 1] == rest[i];
      }
      InsertKeepsSorted(o, es[0], rest);
    }
  }

  lemma SortedHeadsMatch(o: Order, s: seq<Entry>, t: seq<Entry>)
    requires Sorted(o, s) && Sorted(o, t) && s != [] && t != [] && s[0] in t && t[0] in s
    ensures s[0] == t[0]
  {
    var p :| 0 <= p < |t| && t[p] == s[0];
    var q :| 0 <= q < |s| && s[q] == t[0];
    KeyOrderIsTotal(o, s[0].key, t[0].key, s[0].key);
  }

  /** A strictly sorted sequence is determined by its elements. */
  lemma {:induction false} SortedIsUnique(o: Order, s: seq<Entry>, t: seq<Entry>)
    requires |s| == |t| && Sorted(o, s) && Sorted(o, t)
    requires forall e :: e in s <==> e in t
    ensures s == t
  {
    if s != [] {
      assert s[0] in s && t[0] in t;
      SortedHeadsMatch(o, s, t);
      HeadIsNotRepeated(o, s);
      HeadIsNotRepeated(o, t);
      assert s == [s[0]] + s[1..] && t == [t[0]] + t[1..];
      forall e
        ensures e in s[1..] <==> e in t[1..]
      {
        assert e in s <==> e == s[0] || e in s[1..];
        assert e in t <==> e == t[0] || e in t[1..];
      }
      SortedIsUnique(o, s[1..], t[1..]);
    }
  }

  lemma HeadIsNotRepeated(o: Order, s: seq<Entry>)
    requires s != [] && Sorted(o, s)
    ensures s[0] !in s[1..]
  {
    forall k | 0 <= k < |s[1..]|
      ensures s[1..][k] != s[0]
    {
      KeyOrderIsTotal(o, s[0].key, s[0].key, s[0].key);
      assert s[1..][k] == s[k + 1];
    }
  }

  // ---------------------------------------------------------------------
  // The serialisers
  // ---------------------------------------------------------------------

  function Serialize(o: Order, v: Value): string
    decreases Size(v), 1
  {
    match v
    case Null => "null"
    case Bool(b) => if b then "true" else "false"
    case Int(n) => IntText(n)
    case Str(s) => Quote(s)
    case List(items) => "[" + SerializeItems(o, items) + "]"
    case Dict(entries) => "{" + SerializeEntries(o, SortEntries(o, entries)) + "}"
  }

  function SerializeItems(o: Order, items: seq<Value>): string
    decreases SizeItems(items), 0
  {
    if items == [] then ""
    else Serialize(o, items[0]) + (if |items| == 1 then "" else "," + SerializeItems(o, items[1..]))
  }

  function SerializeEntries(o: Order, es: seq<Entry>): string
    decreases SizeEntries(es), 0
  {
    if es == [] then ""
    else
      Quote(es[0].key) + ":" + Serialize(o, es[0].value)
      + (if |es| == 1 then "" else "," + SerializeEntries(o, es[1..]))
  }

  /** The Python string serialiser: one pass over the characters, collecting pieces. Reading its result gives the string back. */
  method JcsString(s: string) returns (out: string)
    ensures out == Quote(s)
    ensures out != "" && forall rest: string :: ReadString(out[1..] + rest) == Some((s, rest))
  {
    out := "\"";
    for i := 0 to |s|
      invariant out + Escape(s[i..]) == "\"" + Escape(s)
    {
      var piece, c := [s[i]], s[i];
      if c == '\"' {
        piece := "\\\"";
      } else if c == '\\' {
        piece := "\\\\";
      } else if c == BACKSPACE {
        piece := "\\b";
      } else if c == FORM_FEED {
        piece := "\\f";
      } else if c == '\n' {
        piece := "\\n";
      } else if c == '\r' {
        piece := "\\r";
      } else if c == '\t' {
        piece := "\\t";
      } else if c as int < 0x20 {
        piece := "\\u00" + [HexDigit(c as int / 16), HexDigit(c as int % 16)];
      }
      CollectPiece(out, s, i, piece);
      out := out + piece;
    }
    assert out + Escape("") == out;
    out := out + "\"";
    QuotedReadsBack(s);
  }

  lemma QuotedReadsBack(s: string)
    ensures Quote(s) != "" && forall rest: string :: ReadString(Quote(s)[1..] + rest) == Some((s, rest))
  {
    hide ReadString, Escape;
    forall rest: string
      ensures ReadString(Quote(s)[1..] + rest) == Some((s, rest))
    {
      ReadQuoted(s, rest);
      assert Quote(s)[1..] + rest == Escape(s) + "\"" + rest;
    }
  }

  lemma CollectPiece(out: string, s: string, i: nat, piece: string)
    requires i < |s| && piece == EscapeChar(s[i])
    ensures (out + piece) + Escape(s[i + 1..]) == out + Escape(s[i..])
  {
    hide EscapeChar;
    assert s[i..][1..] == s[i + 1..];
    assert out + (piece + Escape(s[i + 1..])) == (out + piece) + Escape(s[i + 1..]);
  }

  // ---------------------------------------------------------------------
  // Canonical values
  // ---------------------------------------------------------------------

  /** Dictionaries have distinct keys, at every depth. */
  ghost predicate WellFormed(v: Value)
    decreases v
  {
    match v
    case List(items) => forall i :: 0 <= i < |items| ==> WellFormed(items[i])
    case Dict(es) => DistinctKeys(es) && forall i :: 0 <= i < |es| ==> WellFormed(es[i].value)
    case _ => true
  }

  function Canon(o: Order, v: Value): Value
    decreases v, 1
  {
    match v
    case List(items) => List(CanonItems(o, items))
    case Dict(es) => Dict(SortEntries(o, CanonEntries(o, es)))
    case _ => v
  }

  function CanonItems(o: Order, items: seq<Value>): (r: seq<Value>)
    ensures |r| == |items| && forall i :: 0 <= i < |items| ==> r[i] == Canon(o, items[i])
    decreases items, 0
  {
    if items == [] then [] else [Canon(o, items[0])] + CanonItems(o, items[1..])
  }

  function CanonEntries(o: Order, es: seq<Entry>): (r: seq<Entry>)
    ensures |r| == |es|
    ensures forall i :: 0 <= i < |es| ==> r[i] == Entry(es[i].key, Canon(o, es[i].value))
    decreases es, 0
  {
    if es == [] then []
    else [Entry(es[0].key, Canon(o, es[0].value))] + CanonEntries(o, es[1..])
  }

  function ToJson(v: Value): (j: Json.Json)
    ensures Printable(j)
    decreases v, 1
  {
    match v
    case Null => Json.Null
    case Bool(b) => Json.Bool(b)
    case Int(n) => Json.Num(IntText(n))
    case Str(s) => Json.Str(s)
    case List(items) => Json.Arr(ToItems(items))
    case Dict(es) => Json.Obj(ToMembers(es))
  }

  function ToItems(items: seq<Value>): (r: seq<Json.Json>)
    ensures |r| == |items|
    ensures forall i :: 0 <= i < |r| ==> r[i] == ToJson(items[i]) && Printable(r[i])
    decreases items, 0
  {
    if items == [] then [] else [ToJson(items[0])] + ToItems(items[1..])
  }

  function ToMembers(es: seq<Entry>): (r: seq<Json.Member>)
    ensures |r| == |es|
    ensures forall i :: 0 <= i < |r| ==> r[i] == Json.Member(es[i].key, ToJson(es[i].value)) && Printable(r[i].value)
    decreases es, 0
  {
    if es == [] then [] else [Json.Member(es[0].key, ToJson(es[0].value))] + ToMembers(es[1..])
  }

  lemma {:induction false} ToJsonInjective(a: Value, b: Value)
    requires ToJson(a) == ToJson(b)
    ensures a == b
    decreases a
  {
    match a
    case Int(m) => IntTextInjective(m, b.n);
    case List(x) =>
      var y := b.items;
      forall i | 0 <= i < |x|
        ensures x[i] == y[i]
      {
        assert ToItems(x)[i] == ToItems(y)[i];
        ToJsonInjective(x[i], y[i]);
      }
    case Dict(x) =>
      var y := b.entries;
      forall i | 0 <= i < |x|
        ensures x[i] == y[i]
      {
        assert ToMembers(x)[i] == ToMembers(y)[i];
        ToJsonInjective(x[i].value, y[i].value);
      }
    case _ =>
  }

  // ---------------------------------------------------------------------
  // Serialising is printing the canonical value
  // ---------------------------------------------------------------------

  lemma {:induction false} CanonInsert(o: Order, e: Entry, s: seq<Entry>)
    ensures CanonEntries(o, Insert(o, e, s)) == Insert(o, Entry(e.key, Canon(o, e.value)), CanonEntries(o, s))
  {
    hide KeyLess, Canon;
    if s == [] || KeyLess(o, e.key, s[0].key) {
      assert ([e] + s)[1..] == s;
    } else {
      CanonInsert(o, e, s[1..]);
      var rest := Insert(o, e, s[1..]);
      assert ([s[0]] + rest)[1..] == rest;
      assert CanonEntries(o, s)[1..] == CanonEntries(o, s[1..]);
    }
  }

  lemma {:induction false} CanonSort(o: Order, es: seq<Entry>)
    ensures CanonEntries(o, SortEntries(o, es)) == SortEntries(o, CanonEntries(o, es))
  {
    hide Insert, Canon;
    if es != [] {
      CanonSort(o, es[1..]);
      CanonInsert(o, es[0], SortEntries(o, es[1..]));
      var c := CanonEntries(o, es);
      assert c[0] == Entry(es[0].key, Canon(o, es[0].value)) && c[1..] == CanonEntries(o, es[1..]);
    }
  }

  lemma {:induction false} SerializePrintsCanon(o: Order, v: Value)
    ensures Serialize(o, v) == Text(ToJson(Canon(o, v)))
    decreases Size(v), 1
  {
    hide SerializeItems, SerializeEntries, ItemsText, MembersText, SortEntries, IntText, Quote, CanonItems, CanonEntries;
    match v
    case List(items) => SerializeItemsPrints(o, items);
    case Dict(es) =>
      SerializeEntriesPrints(o, SortEntries(o, es));
      CanonSort(o, es);
    case _ =>
  }

  lemma {:induction false} SerializeItemsPrints(o: Order, items: seq<Value>)
    ensures SerializeItems(o, items) == ItemsText(ToItems(CanonItems(o, items)))
    decreases SizeItems(items), 0
  {
    hide Serialize, Text, Canon, ToJson;
    if items != [] {
      SerializePrintsCanon(o, items[0]);
      SerializeItemsPrints(o, items[1..]);
      var c := CanonItems(o, items);
      assert c[1..] == CanonItems(o, items[1..]);
      assert ToItems(c)[1..] == ToItems(c[1..]);
    }
  }

  lemma {:induction false} SerializeEntriesPrints(o: Order, es: seq<Entry>)
    ensures SerializeEntries(o, es) == MembersText(ToMembers(CanonEntries(o, es)))
    decreases SizeEntries(es), 0
  {
    hide Serialize, Text, Canon, ToJson, Quote;
    if es != [] {
      SerializePrintsCanon(o, es[0].value);
      SerializeEntriesPrints(o, es[1..]);
      var c := CanonEntries(o, es);
      assert c[1..] == CanonEntries(o, es[1..]);
      assert ToMembers(c)[1..] == ToMembers(c[1..]);
      assert MemberText(ToMembers(c)[0]) == Quote(es[0].key) + ":" + Serialize(o, es[0].value);
    }
  }

  /** Equal texts come from equal canonical values, and conversely. */
  lemma TextDeterminesCanon(o: Order, p: Order, a: Value, b: Value)
    ensures Serialize(o, a) == Serialize(p, b) <==> Canon(o, a) == Canon(p, b)
  {
    SerializePrintsCanon(o, a);
    SerializePrintsCanon(p, b);
    if Serialize(o, a) == Serialize(p, b) {
      TextIsInjective(ToJson(Canon(o, a)), ToJson(Canon(p, b)));
      ToJsonInjective(Canon(o, a), Canon(p, b));
    }
  }

  // ---------------------------------------------------------------------
  // Equality up to member order
  // ---------------------------------------------------------------------

  ghost predicate Equivalent(a: Value, b: Value)
    decreases a
  {
    match (a, b)
    case (List(x), List(y)) => |x| == |y| && forall i :: 0 <= i < |x| ==> Equivalent(x[i], y[i])
    case (Dict(x), Dict(y)) =>
      |x| == |y| && forall i :: 0 <= i < |x| ==>
        exists j :: 0 <= j < |y| && x[i].key == y[j].key && Equivalent(x[i].value, y[j].value)
    case _ => a == b
  }

  ghost function Elements(es: seq<Entry>): set<Entry> {
    set e | e in es
  }

  lemma {:induction false} DistinctSize(es: seq<Entry>)
    requires DistinctKeys(es)
    ensures |Elements(es)| == |es|
  {
    if es != [] {
      DistinctSize(Front(es));
      assert Elements(es) == Elements(Front(es)) + {Last(es)};
    }
  }

  lemma SameSizeSubset<T>(a: set<T>, b: set<T>)
    requires a <= b && |a| == |b|
    ensures a == b
  {
    assert |b - a| == |b| - |a|;
  }

  /** Duplicate-free sequences of one length, one contained in the other, sort to the same sequence. */
  lemma SameSort(o: Order, x: seq<Entry>, y: seq<Entry>)
    requires |x| == |y| && DistinctKeys(x) && DistinctKeys(y)
    requires forall i :: 0 <= i < |x| ==> x[i] in y
    ensures SortEntries(o, x) == SortEntries(o, y)
  {
    DistinctSize(x);
    DistinctSize(y);
    SameSizeSubset(Elements(x), Elements(y));
    assert forall e :: e in x <==> e in Elements(x);
    assert forall e :: e in y <==> e in Elements(y);
    SortIsSorted(o, x);
    SortIsSorted(o, y);
    SortedIsUnique(o, SortEntries(o, x), SortEntries(o, y));
  }

  lemma CanonKeysDistinct(o: Order, es: seq<Entry>)
    requires DistinctKeys(es)
    ensures DistinctKeys(CanonEntries(o, es))
  {
  }

  lemma {:induction false} EquivalentHasOneCanon(o: Order, a: Value, b: Value)
    requires WellFormed(a) && WellFormed(b) && Equivalent(a, b)
    ensures Canon(o, a) == Canon(o, b)
    decreases a
  {
    match (a, b)
    case (List(x), List(y)) =>
      forall i | 0 <= i < |x|
        ensures CanonItems(o, x)[i] == CanonItems(o, y)[i]
      {
        EquivalentHasOneCanon(o, x[i], y[i]);
      }
    case (Dict(x), Dict(y)) =>
      var cx, cy := CanonEntries(o, x), CanonEntries(o, y);
      forall i | 0 <= i < |x|
        ensures cx[i] in cy
      {
        var j :| 0 <= j < |y| && x[i].key == y[j].key && Equivalent(x[i].value, y[j].value);
        EquivalentHasOneCanon(o, x[i].value, y[j].value);
        assert cy[j] == cx[i];
      }
      CanonKeysDistinct(o, x);
      CanonKeysDistinct(o, y);
      SameSort(o, cx, cy);
    case _ =>
  }

  /** Sequences that sort alike have the same elements. */
  lemma SameSortFinds(o: Order, p: Order, c: seq<Entry>, d: seq<Entry>, i: nat) returns (j: nat)
    requires i < |c| && SortEntries(o, c) == SortEntries(p, d)
    ensures j < |d| && d[j] == c[i]
  {
    hide SortEntries;
    assert c[i] in c && c[i] in SortEntries(o, c) && c[i] in d;
    j :| 0 <= j < |d| && d[j] == c[i];
  }

  lemma {:induction false} OneCanonIsEquivalent(o: Order, a: Value, b: Value)
    requires Canon(o, a) == Canon(o, b)
    ensures Equivalent(a, b)
    decreases a
  {
    hide SortEntries, CanonEntries, CanonItems;
    match a
    case List(x) =>
      var y := b.items;
      forall i | 0 <= i < |x|
        ensures Equivalent(x[i], y[i])
      {
        assert CanonItems(o, x)[i] == CanonItems(o, y)[i];
        OneCanonIsEquivalent(o, x[i], y[i]);
      }
    case Dict(x) =>
      var y := b.entries;
      var cx, cy := CanonEntries(o, x), CanonEntries(o, y);
      assert |SortEntries(o, cx)| == |x| && |SortEntries(o, cy)| == |y|;
      forall i | 0 <= i < |x|
        ensures exists j :: 0 <= j < |y| && x[i].key == y[j].key && Equivalent(x[i].value, y[j].value)
      {
        var j := SameSortFinds(o, o, cx, cy, i);
        OneCanonIsEquivalent(o, x[i].value, y[j].value);
      }
    case _ =>
  }

  /** Integers that an ECMAScript number holds exactly. */
  ghost predicate SafeIntegers(v: Value)
    decreases v
  {
    match v
    case Int(n) => -0x20_0000_0000_0000 < n < 0x20_0000_0000_0000
    case List(items) => forall i :: 0 <= i < |items| ==> SafeIntegers(items[i])
    case Dict(es) => forall i :: 0 <= i < |es| ==> SafeIntegers(es[i].value)
    case _ => true
  }

  /** Values the serialiser can be given: dictionaries, and in TypeScript exact integers. */
  ghost predicate Serializable(o: Order, v: Value) {
    WellFormed(v) && (o == CodeUnits ==> SafeIntegers(v))
  }

  /**
   Canonical JSON is exact: within either language, two values serialise to the same text if and
   only if they are equal up to the order of object members.
   */
  lemma CanonicalTextIsExact(o: Order, a: Value, b: Value)
    requires Serializable(o, a) && Serializable(o, b)
    ensures Serialize(o, a) == Serialize(o, b) <==> Equivalent(a, b)
  {
    TextDeterminesCanon(o, o, a, b);
    if Equivalent(a, b) {
      EquivalentHasOneCanon(o, a, b);
    }
    if Canon(o, a) == Canon(o, b) {
      OneCanonIsEquivalent(o, a, b);
    }
  }

  // ---------------------------------------------------------------------
  // Python against TypeScript
  // ---------------------------------------------------------------------

  /** In every object, the two key orders agree on every pair of keys. */
  ghost predicate OrdersAgree(v: Value)
    decreases v
  {
    match v
    case List(items) => forall i :: 0 <= i < |items| ==> OrdersAgree(items[i])
    case Dict(es) =>
      && (forall i, j :: 0 <= i < |es| && 0 <= j < |es| ==> KeysAgree(es[i].key, es[j].key))
      && (forall i :: 0 <= i < |es| ==> OrdersAgree(es[i].value))
    case _ => true
  }

  ghost predicate Latin1Keys(v: Value)
    decreases v
  {
    match v
    case List(items) => forall i :: 0 <= i < |items| ==> Latin1Keys(items[i])
    case Dict(es) => forall i :: 0 <= i < |es| ==> Latin1(es[i].key) && Latin1Keys(es[i].value)
    case _ => true
  }

  /** Keys whose code units all fit in one byte are enough for agreement. */
  lemma {:induction false} Latin1ValuesAgree(v: Value)
    requires Latin1Keys(v)
    ensures OrdersAgree(v)
    decreases v
  {
    match v
    case List(items) =>
      forall i | 0 <= i < |items|
        ensures OrdersAgree(items[i])
      {
        Latin1ValuesAgree(items[i]);
      }
    case Dict(es) =>
      forall i, j | 0 <= i < |es| && 0 <= j < |es|
        ensures KeysAgree(es[i].key, es[j].key)
      {
        Latin1KeysAgree(es[i].key, es[j].key);
      }
      forall i | 0 <= i < |es|
        ensures OrdersAgree(es[i].value)
      {
        Latin1ValuesAgree(es[i].value);
      }
    case _ =>
  }

  const PYTHON := LittleEndianBytes
  const TYPESCRIPT := CodeUnits

  lemma KeysOfSorted(o: Order, es: seq<Entry>, e: Entry)
    requires e in SortEntries(PYTHON, CanonEntries(o, es))
    ensures exists i :: 0 <= i < |es| && es[i].key == e.key
  {
    var c := CanonEntries(o, es);
    assert e in c;
    var i :| 0 <= i < |c| && c[i] == e;
    assert es[i].key == e.key;
  }

  lemma {:induction false} AgreeingOrdersOneCanon(v: Value)
    requires WellFormed(v) && OrdersAgree(v)
    ensures Canon(PYTHON, v) == Canon(TYPESCRIPT, v)
    decreases v
  {
    match v
    case List(items) =>
      forall i | 0 <= i < |items|
        ensures CanonItems(PYTHON, items)[i] == CanonItems(TYPESCRIPT, items)[i]
      {
        AgreeingOrdersOneCanon(items[i]);
      }
    case Dict(es) =>
      var c := CanonEntries(PYTHON, es);
      forall i | 0 <= i < |es|
        ensures c[i] == CanonEntries(TYPESCRIPT, es)[i]
      {
        AgreeingOrdersOneCanon(es[i].value);
      }
      assert c == CanonEntries(TYPESCRIPT, es);
      CanonKeysDistinct(PYTHON, es);
      AgreeingSort(es, c);
    case _ =>
  }

  lemma AgreeingSort(es: seq<Entry>, c: seq<Entry>)
    requires DistinctKeys(c) && c == CanonEntries(PYTHON, es)
    requires forall i, j :: 0 <= i < |es| && 0 <= j < |es| ==> KeysAgree(es[i].key, es[j].key)
    ensures SortEntries(PYTHON, c) == SortEntries(TYPESCRIPT, c)
  {
    hide KeyLess, KeysAgree;
    var p, t := SortEntries(PYTHON, c), SortEntries(TYPESCRIPT, c);
    SortIsSorted(PYTHON, c);
    SortIsSorted(TYPESCRIPT, c);
    forall i, j | 0 <= i < j < |p|
      ensures KeyLess(TYPESCRIPT, p[i].key, p[j].key)
    {
      assert p[i] in p && p[j] in p;
      KeysOfSorted(PYTHON, es, p[i]);
      KeysOfSorted(PYTHON, es, p[j]);
      KeysAgreeMeans(p[i].key, p[j].key);
    }
    SortedIsUnique(TYPESCRIPT, p, t);
  }

  lemma {:induction false} OneCanonOrdersAgree(v: Value)
    requires WellFormed(v) && Canon(PYTHON, v) == Canon(TYPESCRIPT, v)
    ensures OrdersAgree(v)
    decreases v
  {
    match v
    case List(items) =>
      forall i | 0 <= i < |items|
        ensures OrdersAgree(items[i])
      {
        assert CanonItems(PYTHON, items)[i] == CanonItems(TYPESCRIPT, items)[i];
        OneCanonOrdersAgree(items[i]);
      }
    case Dict(es) =>
      SameSortOrdersAgree(es);
      forall i | 0 <= i < |es|
        ensures OrdersAgree(es[i].value)
      {
        SameSortSameValues(es, i);
        OneCanonOrdersAgree(es[i].value);
      }
    case _ =>
  }

  lemma SameSortSameValues(es: seq<Entry>, i: nat)
    requires i < |es| && DistinctKeys(es)
    requires SortEntries(PYTHON, CanonEntries(PYTHON, es)) == SortEntries(TYPESCRIPT, CanonEntries(TYPESCRIPT, es))
    ensures Canon(PYTHON, es[i].value) == Canon(TYPESCRIPT, es[i].value)
  {
    hide SortEntries, CanonEntries, Canon, DistinctKeys;
    var j := SameSortFinds(PYTHON, TYPESCRIPT, CanonEntries(PYTHON, es), CanonEntries(TYPESCRIPT, es), i);
    assert es[i].key == es[j].key;
    SameKeySamePlace(es, i, j);
  }

  lemma SameKeySamePlace(es: seq<Entry>, i: nat, j: nat)
    requires DistinctKeys(es) && i < |es| && j < |es| && es[i].key == es[j].key
    ensures i == j
  {
  }

  lemma SameSortOrdersAgree(es: seq<Entry>)
    requires DistinctKeys(es)
    requires SortEntries(PYTHON, CanonEntries(PYTHON, es)) == SortEntries(TYPESCRIPT, CanonEntries(TYPESCRIPT, es))
    ensures forall i, j :: 0 <= i < |es| && 0 <= j < |es| ==> KeysAgree(es[i].key, es[j].key)
  {
    hide KeyLess, KeysAgree;
    var c := CanonEntries(PYTHON, es);
    var s := SortEntries(PYTHON, c);
    CanonKeysDistinct(PYTHON, es);
    CanonKeysDistinct(TYPESCRIPT, es);
    SortIsSorted(PYTHON, c);
    SortIsSorted(TYPESCRIPT, CanonEntries(TYPESCRIPT, es));
    forall i, j | 0 <= i < |es| && 0 <= j < |es|
      ensures KeysAgree(es[i].key, es[j].key)
    {
      assert c[i] in c && c[j] in c;
      assert c[i] in s && c[j] in s;
      var a :| 0 <= a < |s| && s[a] == c[i];
      var b :| 0 <= b < |s| && s[b] == c[j];
      BothSortedAgree(s, a, b);
    }
  }

  lemma BothSortedAgree(s: seq<Entry>, a: nat, b: nat)
    requires Sorted(PYTHON, s) && Sorted(TYPESCRIPT, s) && a < |s| && b < |s|
    ensures KeysAgree(s[a].key, s[b].key)
  {
    hide KeyLess, KeysAgree;
    KeysAgreeMeans(s[a].key, s[b].key);
    KeyOrderIsTotal(PYTHON, s[a].key, s[b].key, s[a].key);
    KeyOrderIsTotal(TYPESCRIPT, s[a].key, s[b].key, s[a].key);
  }

  /**
   The Python shim and the TypeScript client write the same text, and so compute the same
   `args_hash`, exactly when the two key orders agree in every object of the value.
   */
  lemma LanguagesAgreeExactlyWhen(v: Value)
    requires WellFormed(v) && SafeIntegers(v)
    ensures Serialize(PYTHON, v) == Serialize(TYPESCRIPT, v) <==> OrdersAgree(v)
  {
    TextDeterminesCanon(PYTHON, TYPESCRIPT, v, v);
    if OrdersAgree(v) {
      AgreeingOrdersOneCanon(v);
    }
    if Canon(PYTHON, v) == Canon(TYPESCRIPT, v) {
      OneCanonOrdersAgree(v);
    }
  }

  /** A value on which they differ: U+0100 has low byte 0, so Python puts it before `a`. */
  lemma LanguagesCanDiffer()
    ensures var v := Dict([Entry("a", Null), Entry("\U{0100}", Null)]);
            WellFormed(v) && SafeIntegers(v) && Serialize(PYTHON, v) != Serialize(TYPESCRIPT, v)
    ensures KeyLess(PYTHON, "\U{0100}", "a") && KeyLess(TYPESCRIPT, "a", "\U{0100}")
  {
    var v := Dict([Entry("a", Null), Entry("\U{0100}", Null)]);
    var a, b := v.entries[0].key, v.entries[1].key;
    assert a[1..] == "" && b[1..] == "";
    assert Utf16(a) == [0x61] && Utf16(b) == [0x100];
    assert !KeysAgree(a, b);
    LanguagesAgreeExactlyWhen(v);
    LittleEndianOrder(Utf16(b), Utf16(a));
  }
}
