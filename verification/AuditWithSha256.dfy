/**
 The audit log with its real hash and reader: SHA-256 of the UTF-8 bytes, and the JSON parser of this
 model. Nothing is assumed about either.
 */
module AuditWithSha256 {
  import opened Wrappers
  import opened AuditEvent
  import opened AuditChain
  import Sha256

  type byte = Sha256.byte

  /** The UTF-8 form of one Unicode scalar value. */
  function Utf8Char(c: char): (bytes: seq<byte>)
    ensures 1 <= |bytes| <= 4
  {
    var n := c as int;
    if n < 0x80 then [n]
    else if n < 0x800 then [0xC0 + n / 64, Low(n)]
    else if n < 0x1_0000 then [0xE0 + n / 64 / 64, Low(n / 64), Low(n)]
    else [0xF0 + n / 64 / 64 / 64, Low(n / 64 / 64), Low(n / 64), Low(n)]
  }

  /** A continuation byte with the low six bits. */
  function Low(n: nat): (b: byte)
    ensures n == 64 * (n / 64) + (b - 0x80)
  {
    0x80 + n % 64
  }

  function Utf8(s: string): seq<byte> {
    if s == "" then [] else Utf8Char(s[0]) + Utf8(s[1..])
  }

  /** How long a character is, from its first byte. */
  function Utf8Length(first: byte): nat {
    if first < 0x80 then 1 else if first < 0xE0 then 2 else if first < 0xF0 then 3 else 4
  }

  /** The character a UTF-8 group stands for. */
  function Utf8Value(b: seq<int>): int
    requires b != []
  {
    if |b| == 1 then b[0]
    else if |b| == 2 then 64 * (b[0] - 0xC0) + (b[1] - 0x80)
    else if |b| == 3 then 64 * (64 * (b[0] - 0xE0) + (b[1] - 0x80)) + (b[2] - 0x80)
    else if |b| == 4 then 64 * (64 * (64 * (b[0] - 0xF0) + (b[1] - 0x80)) + (b[2] - 0x80)) + (b[3] - 0x80)
    else 0
  }

  lemma Utf8CharReads(c: char)
    ensures |Utf8Char(c)| == Utf8Length(Utf8Char(c)[0]) && Utf8Value(Utf8Char(c)) == c as int
  {
    hide Low;
  }

  /** Different texts have different bytes. */
  lemma {:induction false} Utf8Injective(s: string, t: string)
    requires Utf8(s) == Utf8(t)
    ensures s == t
  {
    hide Utf8Char, Utf8Length, Utf8Value;
    if s != "" && t != "" {
      var x, y := Utf8Char(s[0]), Utf8Char(t[0]);
      Utf8CharReads(s[0]);
      Utf8CharReads(t[0]);
      assert Utf8(s)[0] == x[0] && Utf8(t)[0] == y[0];
      assert x == Utf8(s)[..|x|] && y == Utf8(t)[..|y|];
      assert s[0] as int == t[0] as int;
      assert Utf8(s[1..]) == Utf8(s)[|x|..] && Utf8(t[1..]) == Utf8(t)[|y|..];
      Utf8Injective(s[1..], t[1..]);
      assert s == [s[0]] + s[1..] && t == [t[0]] + t[1..];
    } else {
      assert |Utf8(s)| == |Utf8(t)|;
    }
  }

  function Sha256Hex(s: string): string {
    Sha256.Digest(Utf8(s))
  }

  lemma DigestCharsAreHex(data: seq<byte>)
    ensures Hex(Sha256.Digest(data))
  {
    hide Sha256.Digest;
    Sha256.DigestIsHex(data);
  }

  lemma Sha256HexIsHex()
    ensures HexDigests(Sha256Hex)
  {
    hide Sha256.Digest, Utf8, Hex;
    forall s: string
      ensures Hex(Sha256Hex(s))
    {
      DigestCharsAreHex(Utf8(s));
    }
  }

  /** Round trip without hypotheses on hash or reader. */
  lemma WrittenLogVerifiesWithSha256(events: seq<Event>)
    requires AllPrintable(events)
    ensures IsVerdict(Sha256Hex, ReadLine, ContentLines(LogText(LogLines(Sha256Hex, events))), Valid(|events|))
  {
    hide *;
    Sha256HexIsHex();
    ReadLineReads();
    WrittenLogVerifies(Sha256Hex, ReadLine, events);
  }

  /** Different byte strings with the same SHA-256 digest. */
  ghost predicate Sha256Collision(x: seq<byte>, y: seq<byte>) {
    x != y && Sha256.Digest(x) == Sha256.Digest(y)
  }

  /** Two accepted logs with the same last line are the same, or two of their lines break SHA-256. */
  lemma TamperEvidenceWithSha256(a: seq<string>, b: seq<string>)
    requires Accepted(Sha256Hex, ReadLine, a) && Accepted(Sha256Hex, ReadLine, b)
    requires a != [] && b != [] && Last(a) == Last(b)
    ensures a == b || exists i, j :: 0 <= i < |a| && 0 <= j < |b| && Sha256Collision(Utf8(a[i]), Utf8(b[j]))
  {
    hide Accepted, Utf8, Sha256.Digest;
    TamperEvidence(Sha256Hex, ReadLine, a, b);
    if a != b {
      var i, j :| 0 <= i < |a| && 0 <= j < |b| && a[i] != b[j] && Sha256Hex(a[i]) == Sha256Hex(b[j]);
      if Utf8(a[i]) == Utf8(b[j]) {
        Utf8Injective(a[i], b[j]);
        assert false;
      }
      assert Sha256Collision(Utf8(a[i]), Utf8(b[j]));
    }
  }
}
