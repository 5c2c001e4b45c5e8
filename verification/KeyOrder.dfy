/**
 The two key orders of the canonical serialisers. RFC 8785 section 3.2.3 asks for the order of UTF-16
 code units, which the TypeScript client uses; the Python shim compares the little-endian bytes of
 those units instead.
 */
module KeyOrder {

  // ---------------------------------------------------------------------
  // Lexicographic order on number sequences
  // ---------------------------------------------------------------------

  predicate LexLess(a: seq<int>, b: seq<int>) {
    if b == [] then false
    else if a == [] then true
    else a[0] < b[0] || (a[0] == b[0] && LexLess(a[1..], b[1..]))
  }

  lemma {:induction false} LexIrreflexive(a: seq<int>)
    ensures !LexLess(a, a)
  {
    if a != [] {
      LexIrreflexive(a[1..]);
    }
  }

  lemma {:induction false} LexTransitive(a: seq<int>, b: seq<int>, c: seq<int>)
    requires LexLess(a, b) && LexLess(b, c)
    ensures LexLess(a, c)
  {
    if a != [] && a[0] == b[0] && b[0] == c[0] {
      LexTransitive(a[1..], b[1..], c[1..]);
    }
  }

  lemma {:induction false} LexTotal(a: seq<int>, b: seq<int>)
    ensures LexLess(a, b) || a == b || LexLess(b, a)
  {
    if a != [] && b != [] && a[0] == b[0] {
      LexTotal(a[1..], b[1..]);
      if a[1..] == b[1..] {
        assert a == [a[0]] + a[1..] && b == [b[0]] + b[1..];
      }
    }
  }

  /** Up to place `i` the two are the same, and there `a` ends or is smaller. */
  ghost predicate SmallerAt(a: seq<int>, b: seq<int>, i: nat) {
    i <= |a| && i < |b| && a[..i] == b[..i] && (i == |a| || a[i] < b[i])
  }

  ghost predicate Smaller(a: seq<int>, b: seq<int>) {
    exists i: nat :: SmallerAt(a, b, i)
  }

  /** The order is ascending, and a prefix comes before what it is a prefix of. */
  lemma {:induction false} LexLessMeans(a: seq<int>, b: seq<int>)
    ensures LexLess(a, b) <==> Smaller(a, b)
  {
    if b != [] && a != [] {
      LexLessMeans(a[1..], b[1..]);
      if LexLess(a, b) {
        if a[0] < b[0] {
          assert SmallerAt(a, b, 0);
        } else {
          var i: nat :| SmallerAt(a[1..], b[1..], i);
          assert a[..i + 1] == [a[0]] + a[1..][..i] && b[..i + 1] == [b[0]] + b[1..][..i];
          assert SmallerAt(a, b, i + 1);
        }
      }
      if Smaller(a, b) {
        var i: nat :| SmallerAt(a, b, i);
        if i > 0 {
          assert a[..i][0] == b[..i][0];
          assert a[1..][..i - 1] == a[..i][1..] && b[1..][..i - 1] == b[..i][1..];
          assert SmallerAt(a[1..], b[1..], i - 1);
        }
      }
    } else if b != [] {
      assert SmallerAt(a, b, 0);
    }
  }

  // ---------------------------------------------------------------------
  // UTF-16
  // ---------------------------------------------------------------------

  function Units(c: char): (u: seq<int>)
    ensures 1 <= |u| <= 2
    ensures forall i :: 0 <= i < |u| ==> 0 <= u[i] < 0x10000
    ensures |u| == 2 <==> 0xD800 <= u[0] < 0xDC00
  {
    var n := c as int;
    if n < 0x10000 then [n] else [0xD800 + (n - 0x10000) / 0x400, 0xDC00 + (n - 0x10000) % 0x400]
  }

  function Utf16(s: string): seq<int> {
    if s == "" then [] else Units(s[0]) + Utf16(s[1..])
  }

  /** Up to U+FFFF a unit is the character itself; beyond that a high and a low surrogate share its bits. */
  lemma UnitsMean(c: char)
    ensures c as int < 0x10000 ==> Units(c) == [c as int]
    ensures c as int >= 0x10000 ==>
              var u := Units(c);
              && |u| == 2 && 0xD800 <= u[0] < 0xDC00 && 0xDC00 <= u[1] < 0xE000
              && c as int == 0x10000 + 0x400 * (u[0] - 0xD800) + (u[1] - 0xDC00)
  {
  }

  lemma UnitsInjective(c: char, d: char)
    requires Units(c) == Units(d)
    ensures c == d
  {
    var m, n := c as int, d as int;
    if m >= 0x10000 {
      assert Units(c)[0] == Units(d)[0] && Units(c)[1] == Units(d)[1];
      assert m - 0x10000 == 0x400 * ((m - 0x10000) / 0x400) + (m - 0x10000) % 0x400;
      assert n - 0x10000 == 0x400 * ((n - 0x10000) / 0x400) + (n - 0x10000) % 0x400;
    }
  }

  lemma {:induction false} Utf16Injective(s: string, t: string)
    requires Utf16(s) == Utf16(t)
    ensures s == t
    decreases |s|
  {
    if s == "" || t == "" {
      assert |Utf16(s)| == |Utf16(t)|;
    } else {
      var u, w := Units(s[0]), Units(t[0]);
      assert Utf16(s)[0] == u[0] && Utf16(t)[0] == w[0];
      assert |u| == |w|;
      assert u == Utf16(s)[..|u|] && w == Utf16(t)[..|w|];
      UnitsInjective(s[0], t[0]);
      assert Utf16(s[1..]) == Utf16(s)[|u|..] && Utf16(t[1..]) == Utf16(t)[|w|..];
      Utf16Injective(s[1..], t[1..]);
      assert s == [s[0]] + s[1..] && t == [t[0]] + t[1..];
    }
  }

  /** Little-endian bytes: low byte first. */
  function LittleEndian(u: seq<int>): seq<int> {
    if u == [] then [] else [u[0] % 256, u[0] / 256] + LittleEndian(u[1..])
  }

  /** Each unit is two bytes, the low one first. */
  lemma {:induction false} LittleEndianAt(u: seq<int>, i: nat)
    requires i < |u|
    ensures |LittleEndian(u)| == 2 * |u| && LittleEndian(u)[2 * i] == u[i] % 256 && LittleEndian(u)[2 * i + 1] == u[i] / 256
  {
    if i > 0 {
      LittleEndianAt(u[1..], i - 1);
    } else if |u| > 1 {
      LittleEndianAt(u[1..], 0);
    }
  }

  /** The order that little-endian bytes give to two different units. */
  predicate SwappedLess(x: int, y: int) {
    x % 256 < y % 256 || (x % 256 == y % 256 && x / 256 < y / 256)
  }

  lemma {:induction false} LittleEndianOrder(a: seq<int>, b: seq<int>)
    ensures LexLess(LittleEndian(a), LittleEndian(b)) <==>
            b != [] && (a == [] || SwappedLess(a[0], b[0]) || (a[0] == b[0] && LexLess(LittleEndian(a[1..]), LittleEndian(b[1..]))))
  {
    if a != [] && b != [] {
      var p, q := LittleEndian(a), LittleEndian(b);
      assert p[0] == a[0] % 256 && p[1..][0] == a[0] / 256 && p[1..][1..] == LittleEndian(a[1..]);
      assert q[0] == b[0] % 256 && q[1..][0] == b[0] / 256 && q[1..][1..] == LittleEndian(b[1..]);
      assert LexLess(p, q) <==> p[0] < q[0] || (p[0] == q[0] && LexLess(p[1..], q[1..]));
      assert a[0] == 256 * (a[0] / 256) + a[0] % 256 && b[0] == 256 * (b[0] / 256) + b[0] % 256;
    }
  }

  lemma {:induction false} LittleEndianInjective(a: seq<int>, b: seq<int>)
    requires LittleEndian(a) == LittleEndian(b)
    ensures a == b
  {
    if a == [] || b == [] {
      assert |LittleEndian(a)| == |LittleEndian(b)|;
    } else {
      var p, q := LittleEndian(a), LittleEndian(b);
      assert p[0] == q[0] && p[1] == q[1] && p[2..] == LittleEndian(a[1..]) && q[2..] == LittleEndian(b[1..]);
      LittleEndianInjective(a[1..], b[1..]);
      assert a == [a[0]] + a[1..] && b == [b[0]] + b[1..];
    }
  }

  // ---------------------------------------------------------------------
  // Key orders
  // ---------------------------------------------------------------------

  datatype Order = CodeUnits | LittleEndianBytes

  function SortKey(o: Order, key: string): seq<int> {
    match o
    case CodeUnits => Utf16(key)
    case LittleEndianBytes => LittleEndian(Utf16(key))
  }

  predicate KeyLess(o: Order, a: string, b: string) {
    LexLess(SortKey(o, a), SortKey(o, b))
  }

  /** TypeScript compares code units, Python the little-endian bytes of the code units; both ascending. */
  lemma KeyLessMeans(a: string, b: string)
    ensures KeyLess(CodeUnits, a, b) <==> Smaller(Utf16(a), Utf16(b))
    ensures KeyLess(LittleEndianBytes, a, b) <==> Smaller(LittleEndian(Utf16(a)), LittleEndian(Utf16(b)))
  {
    hide LexLess, Smaller;
    LexLessMeans(Utf16(a), Utf16(b));
    LexLessMeans(LittleEndian(Utf16(a)), LittleEndian(Utf16(b)));
  }

  /** Both orders are strict total orders on keys. */
  lemma KeyOrderIsTotal(o: Order, a: string, b: string, c: string)
    ensures !KeyLess(o, a, a)
    ensures KeyLess(o, a, b) && KeyLess(o, b, c) ==> KeyLess(o, a, c)
    ensures KeyLess(o, a, b) || a == b || KeyLess(o, b, a)
  {
    var x, y, z := SortKey(o, a), SortKey(o, b), SortKey(o, c);
    LexIrreflexive(x);
    if LexLess(x, y) && LexLess(y, z) {
      LexTransitive(x, y, z);
    }
    LexTotal(x, y);
    if x == y {
      if o == LittleEndianBytes {
        LittleEndianInjective(Utf16(a), Utf16(b));
      }
      Utf16Injective(a, b);
    }
  }

  /** The two orders agree on two unit sequences: their first difference keeps its order when bytes are swapped. */
  predicate UnitsAgree(a: seq<int>, b: seq<int>) {
    if a == [] || b == [] then true
    else if a[0] == b[0] then UnitsAgree(a[1..], b[1..])
    else a[0] < b[0] <==> SwappedLess(a[0], b[0])
  }

  predicate KeysAgree(a: string, b: string) {
    UnitsAgree(Utf16(a), Utf16(b))
  }

  lemma {:induction false} UnitsAgreeMeans(a: seq<int>, b: seq<int>)
    ensures UnitsAgree(a, b) <==> (LexLess(a, b) <==> LexLess(LittleEndian(a), LittleEndian(b)))
  {
    LittleEndianOrder(a, b);
    if a != [] && b != [] && a[0] == b[0] {
      UnitsAgreeMeans(a[1..], b[1..]);
    }
  }

  lemma KeysAgreeMeans(a: string, b: string)
    ensures KeysAgree(a, b) <==> (KeyLess(CodeUnits, a, b) <==> KeyLess(LittleEndianBytes, a, b))
  {
    UnitsAgreeMeans(Utf16(a), Utf16(b));
  }

  /** Keys in Latin-1 always agree, so the usual ASCII keys are safe. */
  predicate Latin1(s: string) {
    forall i :: 0 <= i < |s| ==> s[i] as int < 0x100
  }

  lemma {:induction false} Latin1KeysAgree(a: string, b: string)
    requires Latin1(a) && Latin1(b)
    ensures KeysAgree(a, b)
    decreases |a|
  {
    if a != "" && b != "" {
      assert Utf16(a)[0] == a[0] as int && Utf16(a)[1..] == Utf16(a[1..]);
      assert Utf16(b)[0] == b[0] as int && Utf16(b)[1..] == Utf16(b[1..]);
      Latin1KeysAgree(a[1..], b[1..]);
    }
  }
}
