/**
 The build script's own SHA-256, in place on arrays, against the functional definition of FIPS 180-4:
 section 4.1.2 (functions), 5.1.1 (padding), 5.2.1 (parsing) and 6.2.2 (hash computation).
 */
module Sha256 {

  const TWO_32 := 0x1_0000_0000
  const TWO_64 := 0x1_0000_0000_0000_0000

  type byte = x: int | 0 <= x < 256

  type word = x: int | 0 <= x < TWO_32

  // ---------------------------------------------------------------------
  // Section 4: functions and constants
  // ---------------------------------------------------------------------

  /** Addition modulo 2^32. */
  function Plus(x: word, y: word): word { (x + y) % TWO_32 }

  // Words as bit vectors and back.

  function Bits(x: word): bv32 { x as bv32 }
  function Back(b: bv32): word { b as word }

  function BitCh(x: bv32, y: bv32, z: bv32): bv32 { (x & y) ^ (!x & z) }
  function BitMaj(x: bv32, y: bv32, z: bv32): bv32 { (x & y) ^ (x & z) ^ (y & z) }

  function Ch(x: word, y: word, z: word): word { Back(BitCh(Bits(x), Bits(y), Bits(z))) }
  function Maj(x: word, y: word, z: word): word { Back(BitMaj(Bits(x), Bits(y), Bits(z))) }

  /** Where `x` has a one the choice is `y`, and elsewhere it is `z`. */
  predicate Chooses(x: bv32, y: bv32, z: bv32, r: bv32) {
    Agrees(x, y, r) && Agrees(!x, z, r)
  }

  /** The two agree where the mask has ones. */
  predicate Agrees(mask: bv32, y: bv32, r: bv32) {
    r & mask == y & mask
  }

  /** Where two of the three agree, so does the majority. */
  predicate IsMajority(x: bv32, y: bv32, z: bv32, r: bv32) {
    Follows(x, y, r) && Follows(x, z, r) && Follows(y, z, r)
  }

  predicate Follows(x: bv32, y: bv32, r: bv32) {
    Agrees(!(x ^ y), x, r)
  }

  lemma OnesChosen(x: bv32, y: bv32, z: bv32)
    ensures Agrees(x, y, BitCh(x, y, z))
  {
  }

  lemma ZerosChosen(x: bv32, y: bv32, z: bv32)
    ensures Agrees(!x, z, BitCh(x, y, z))
  {
  }

  lemma MajorityFollows(x: bv32, y: bv32, z: bv32)
    ensures Follows(x, y, BitMaj(x, y, z))
  {
  }

  lemma MajorityFollowsOuter(x: bv32, y: bv32, z: bv32)
    ensures Follows(x, z, BitMaj(x, y, z))
  {
  }

  lemma MajorityFollowsLast(x: bv32, y: bv32, z: bv32)
    ensures Follows(y, z, BitMaj(x, y, z))
  {
  }

  /** The choice and majority functions of the standard, on words. */
  lemma ChoiceAndMajority(x: word, y: word, z: word) returns (c: bv32, m: bv32)
    ensures Ch(x, y, z) == Back(c) && Chooses(Bits(x), Bits(y), Bits(z), c)
    ensures Maj(x, y, z) == Back(m) && IsMajority(Bits(x), Bits(y), Bits(z), m)
  {
    hide Bits, Back, BitCh, BitMaj, Agrees, Follows;
    var u, v, w := Bits(x), Bits(y), Bits(z);
    c, m := BitCh(u, v, w), BitMaj(u, v, w);
    OnesChosen(u, v, w);
    ZerosChosen(u, v, w);
    MajorityFollows(u, v, w);
    MajorityFollowsOuter(u, v, w);
    MajorityFollowsLast(u, v, w);
  }

  // Rotations as the standard defines them, by two shifts.

  function BitSum0(x: bv32): bv32 { ((x >> 2) | (x << 30)) ^ ((x >> 13) | (x << 19)) ^ ((x >> 22) | (x << 10)) }
  function BitSum1(x: bv32): bv32 { ((x >> 6) | (x << 26)) ^ ((x >> 11) | (x << 21)) ^ ((x >> 25) | (x << 7)) }
  function BitSigma0(x: bv32): bv32 { ((x >> 7) | (x << 25)) ^ ((x >> 18) | (x << 14)) ^ (x >> 3) }
  function BitSigma1(x: bv32): bv32 { ((x >> 17) | (x << 15)) ^ ((x >> 19) | (x << 13)) ^ (x >> 10) }

  function Sum0(x: word): word { Back(BitSum0(Bits(x))) }
  function Sum1(x: word): word { Back(BitSum1(Bits(x))) }
  function Sigma0(x: word): word { Back(BitSigma0(Bits(x))) }
  function Sigma1(x: word): word { Back(BitSigma1(Bits(x))) }

  // The round constants, eight to a row.

  const K0: seq<word> := [0x428a2f98, 0x71374491, 0xb5c0fbcf, 0xe9b5dba5, 0x3956c25b, 0x59f111f1, 0x923f82a4, 0xab1c5ed5]
  const K1: seq<word> := [0xd807aa98, 0x12835b01, 0x243185be, 0x550c7dc3, 0x72be5d74, 0x80deb1fe, 0x9bdc06a7, 0xc19bf174]
  const K2: seq<word> := [0xe49b69c1, 0xefbe4786, 0x0fc19dc6, 0x240ca1cc, 0x2de92c6f, 0x4a7484aa, 0x5cb0a9dc, 0x76f988da]
  const K3: seq<word> := [0x983e5152, 0xa831c66d, 0xb00327c8, 0xbf597fc7, 0xc6e00bf3, 0xd5a79147, 0x06ca6351, 0x14292967]
  const K4: seq<word> := [0x27b70a85, 0x2e1b2138, 0x4d2c6dfc, 0x53380d13, 0x650a7354, 0x766a0abb, 0x81c2c92e, 0x92722c85]
  const K5: seq<word> := [0xa2bfe8a1, 0xa81a664b, 0xc24b8b70, 0xc76c51a3, 0xd192e819, 0xd6990624, 0xf40e3585, 0x106aa070]
  const K6: seq<word> := [0x19a4c116, 0x1e376c08, 0x2748774c, 0x34b0bcb5, 0x391c0cb3, 0x4ed8aa4a, 0x5b9cca4f, 0x682e6ff3]
  const K7: seq<word> := [0x748f82ee, 0x78a5636f, 0x84c87814, 0x8cc70208, 0x90befffa, 0xa4506ceb, 0xbef9a3f7, 0xc67178f2]

  const K: seq<word> := K0 + K1 + K2 + K3 + K4 + K5 + K6 + K7

  datatype State = State(a: word, b: word, c: word, d: word, e: word, f: word, g: word, h: word)

  const INITIAL := State(0x6a09e667, 0xbb67ae85, 0x3c6ef372, 0xa54ff53a, 0x510e527f, 0x9b05688c, 0x1f83d9ab, 0x5be0cd19)

  // ---------------------------------------------------------------------
  // Section 5: padding and parsing
  // ---------------------------------------------------------------------

  function BigEndian(n: nat, k: nat): (r: seq<byte>)
    ensures |r| == k
  {
    if k == 0 then [] else BigEndian(n / 256, k - 1) + [n % 256]
  }

  function Zeros(k: nat): (r: seq<byte>)
    ensures |r| == k
  {
    if k == 0 then [] else Zeros(k - 1) + [0]
  }

  /** With `k` zero bytes after the marker the length is 56 modulo 64. */
  predicate Aligned(n: nat, k: nat) {
    (n + 1 + k) % 64 == 56
  }

  /** The least such number of zero bytes. */
  function ZeroCount(n: nat): (k: nat)
    ensures Aligned(n, k) && forall j: nat :: j < k ==> !Aligned(n, j)
  {
    (119 - n % 64) % 64
  }

  function Padded(data: seq<byte>): seq<byte> {
    data + [0x80] + Zeros(ZeroCount(|data|)) + BigEndian(8 * |data| % TWO_64, 8)
  }

  lemma PaddedLength(data: seq<byte>)
    ensures |Padded(data)| % 64 == 0 && |Padded(data)| == |data| + 1 + ZeroCount(|data|) + 8
  {
    hide BigEndian, Zeros, ZeroCount;
    RoundUp(|data| + 1 + ZeroCount(|data|));
  }

  lemma RoundUp(n: nat)
    requires n % 64 == 56
    ensures (n + 8) % 64 == 0
  {
  }

  function FromBigEndian(b: seq<byte>): nat {
    if b == [] then 0 else 256 * FromBigEndian(b[..|b| - 1]) + b[|b| - 1]
  }

  function Power256(k: nat): nat {
    if k == 0 then 1 else 256 * Power256(k - 1)
  }

  lemma {:induction false} FromBigEndianInverts(n: nat, k: nat)
    requires n < Power256(k)
    ensures FromBigEndian(BigEndian(n, k)) == n
  {
    if k > 0 {
      FromBigEndianInverts(n / 256, k - 1);
      var b := BigEndian(n, k);
      assert b[..k - 1] == BigEndian(n / 256, k - 1);
    }
  }

  /** Padding is injective below 2^61 bytes: two messages never pad to the same blocks. */
  lemma PaddingIsInjective(a: seq<byte>, b: seq<byte>)
    requires |a| < 0x2000_0000_0000_0000 && |b| < 0x2000_0000_0000_0000
    ensures Padded(a) == Padded(b) <==> a == b
  {
    hide BigEndian, FromBigEndian, ZeroCount, Zeros, Power256, Padded;
    Power256Of8();
    PaddedParts(a);
    PaddedParts(b);
    FromBigEndianInverts(8 * |a|, 8);
    FromBigEndianInverts(8 * |b|, 8);
  }

  lemma Power256Of8()
    ensures Power256(8) == TWO_64
  {
    assert Power256(4) == 0x1_0000_0000;
  }

  /** The message stands at the front of its padding and its length in the last eight bytes. */
  lemma PaddedParts(data: seq<byte>)
    requires |data| < 0x2000_0000_0000_0000
    ensures var p := Padded(data); |p| >= |data| + 8 && p[..|data|] == data && p[|p| - 8..] == BigEndian(8 * |data|, 8)
  {
    hide BigEndian, ZeroCount, Zeros;
  }

  function WordOf(b: seq<byte>): word
    requires |b| == 4
  {
    (b[0] as int) * 0x100_0000 + (b[1] as int) * 0x1_0000 + (b[2] as int) * 0x100 + b[3] as int
  }

  /** A word is read with its most significant byte first. */
  lemma WordIsBigEndian(b: seq<byte>)
    requires |b| == 4
    ensures WordOf(b) == FromBigEndian(b)
  {
    var b3, b2, b1 := b[..3], b[..2], b[..1];
    assert b3[..2] == b2 && b2[..1] == b1 && b1[..0] == [];
    assert FromBigEndian(b1) == b[0];
    hide FromBigEndian;
    FromBigEndianStep(b2);
    FromBigEndianStep(b3);
    FromBigEndianStep(b);
  }

  lemma FromBigEndianStep(b: seq<byte>)
    requires b != []
    ensures FromBigEndian(b) == 256 * FromBigEndian(b[..|b| - 1]) + b[|b| - 1]
  {
  }

  /** Word `t` of block `i` of the padded message. */
  function BlockWord(msg: seq<byte>, i: nat, t: nat): word
    requires 64 * (i + 1) <= |msg| && t < 16
  {
    WordOf(msg[64 * i + 4 * t..64 * i + 4 * t + 4])
  }

  // ---------------------------------------------------------------------
  // Section 6.2.2: hash computation
  // ---------------------------------------------------------------------

  function Schedule(msg: seq<byte>, i: nat, t: nat): word
    requires 64 * (i + 1) <= |msg|
  {
    if t < 16 then BlockWord(msg, i, t)
    else
      Plus(Plus(Plus(Sigma1(Schedule(msg, i, t - 2)), Schedule(msg, i, t - 7)),
                Sigma0(Schedule(msg, i, t - 15))), Schedule(msg, i, t - 16))
  }

  function Round(s: State, k: word, w: word): State {
    var t1 := Plus(Plus(Plus(Plus(s.h, Sum1(s.e)), Ch(s.e, s.f, s.g)), k), w);
    var t2 := Plus(Sum0(s.a), Maj(s.a, s.b, s.c));
    State(Plus(t1, t2), s.a, s.b, s.c, Plus(s.d, t1), s.e, s.f, s.g)
  }

  function Rounds(msg: seq<byte>, i: nat, start: State, t: nat): State
    requires 64 * (i + 1) <= |msg| && t <= 64
  {
    if t == 0 then start else Round(Rounds(msg, i, start, t - 1), K[t - 1], Schedule(msg, i, t - 1))
  }

  function Add(x: State, y: State): State {
    State(Plus(x.a, y.a), Plus(x.b, y.b), Plus(x.c, y.c), Plus(x.d, y.d),
          Plus(x.e, y.e), Plus(x.f, y.f), Plus(x.g, y.g), Plus(x.h, y.h))
  }

  /** The intermediate hash value after the first `n` blocks. */
  function Hashed(msg: seq<byte>, n: nat): State
    requires 64 * n <= |msg|
  {
    if n == 0 then INITIAL
    else
      var before := Hashed(msg, n - 1);
      Add(Rounds(msg, n - 1, before, 64), before)
  }

  function HexDigit(n: nat): char
    requires n < 16
  {
    if n < 10 then ('0' as int + n) as char else ('a' as int + (n - 10)) as char
  }

  function HexText(n: nat, k: nat): (t: string)
    ensures |t| == k
    ensures forall i :: 0 <= i < |t| ==> '0' <= t[i] <= '9' || 'a' <= t[i] <= 'f'
  {
    if k == 0 then "" else HexText(n / 16, k - 1) + [HexDigit(n % 16)]
  }

  /** The number that lowercase hexadecimal text stands for. */
  function FromHex(t: string): int {
    if t == "" then 0
    else
      var c := t[|t| - 1];
      16 * FromHex(t[..|t| - 1])
      + (if '0' <= c <= '9' then c as int - '0' as int else if 'a' <= c <= 'f' then c as int - 'a' as int + 10 else 0)
  }

  function Power16(k: nat): nat {
    if k == 0 then 1 else 16 * Power16(k - 1)
  }

  lemma HexDigitValue(n: nat)
    requires n < 16
    ensures FromHex([HexDigit(n)]) == n
  {
    assert [HexDigit(n)][..0] == "";
  }

  lemma FromHexAppend(t: string, c: char)
    ensures FromHex(t + [c]) == 16 * FromHex(t) + FromHex([c])
  {
    assert (t + [c])[..|t|] == t && [c][..0] == "";
  }

  /** The hexadecimal text of a number, most significant digit first. */
  lemma {:induction false} FromHexInverts(n: nat, k: nat)
    requires n < Power16(k)
    ensures FromHex(HexText(n, k)) == n
  {
    if k > 0 {
      hide HexDigit, FromHex;
      FromHexInverts(n / 16, k - 1);
      FromHexAppend(HexText(n / 16, k - 1), HexDigit(n % 16));
      HexDigitValue(n % 16);
    } else {
      assert FromHex("") == 0;
    }
  }

  function HexWord(w: word): string {
    HexText(w, 8)
  }

  function HexState(s: State): string {
    HexWord(s.a) + HexWord(s.b) + HexWord(s.c) + HexWord(s.d) + HexWord(s.e) + HexWord(s.f) + HexWord(s.g) + HexWord(s.h)
  }

  function Digest(data: seq<byte>): string {
    HexState(Hashed(Padded(data), |Padded(data)| / 64))
  }

  predicate HexChars(t: string) {
    forall i :: 0 <= i < |t| ==> '0' <= t[i] <= '9' || 'a' <= t[i] <= 'f'
  }

  lemma HexAppend(t: string, w: word)
    requires HexChars(t)
    ensures HexChars(t + HexWord(w)) && |t + HexWord(w)| == |t| + 8
  {
  }

  /** Every digest is 64 lowercase hex characters. */
  lemma DigestIsHex(data: seq<byte>)
    ensures |Digest(data)| == 64 && HexChars(Digest(data))
  {
    hide Hashed, HexWord, HexChars, Padded;
    var s := Hashed(Padded(data), |Padded(data)| / 64);
    HexStateIsHex(s);
  }

  lemma HexStateIsHex(s: State)
    ensures |HexState(s)| == 64 && HexChars(HexState(s))
  {
    hide HexWord, HexChars;
    HexNothing();
    var t := "" + HexWord(s.a);
    HexAppend("", s.a);
    HexAppend(t, s.b);
    HexAppend(t + HexWord(s.b), s.c);
    HexAppend(t + HexWord(s.b) + HexWord(s.c), s.d);
    HexAppend(t + HexWord(s.b) + HexWord(s.c) + HexWord(s.d), s.e);
    HexAppend(t + HexWord(s.b) + HexWord(s.c) + HexWord(s.d) + HexWord(s.e), s.f);
    HexAppend(t + HexWord(s.b) + HexWord(s.c) + HexWord(s.d) + HexWord(s.e) + HexWord(s.f), s.g);
    HexAppend(t + HexWord(s.b) + HexWord(s.c) + HexWord(s.d) + HexWord(s.e) + HexWord(s.f) + HexWord(s.g), s.h);
    assert t == HexWord(s.a);
  }

  lemma HexNothing()
    ensures HexChars("")
  {
  }

  // ---------------------------------------------------------------------
  // The implementation
  // ---------------------------------------------------------------------

  // The script's rotations, against the shifts of the standard.

  function BitRotSum0(x: bv32): bv32 { x.RotateRight(2) ^ x.RotateRight(13) ^ x.RotateRight(22) }
  function BitRotSum1(x: bv32): bv32 { x.RotateRight(6) ^ x.RotateRight(11) ^ x.RotateRight(25) }
  function BitRotSigma0(x: bv32): bv32 { x.RotateRight(7) ^ x.RotateRight(18) ^ (x >> 3) }
  function BitRotSigma1(x: bv32): bv32 { x.RotateRight(17) ^ x.RotateRight(19) ^ (x >> 10) }

  function RotSum0(x: word): word { Back(BitRotSum0(Bits(x))) }
  function RotSum1(x: word): word { Back(BitRotSum1(Bits(x))) }
  function RotSigma0(x: word): word { Back(BitRotSigma0(Bits(x))) }
  function RotSigma1(x: word): word { Back(BitRotSigma1(Bits(x))) }

  lemma BitRotations(x: bv32)
    ensures BitRotSum0(x) == BitSum0(x) && BitRotSum1(x) == BitSum1(x)
    ensures BitRotSigma0(x) == BitSigma0(x) && BitRotSigma1(x) == BitSigma1(x)
  {
  }

  /** How far each function rotates and shifts, on the lowest bit and on the highest. */
  lemma RotationAmounts()
    ensures BitSum0(1) == 0x4008_0400 && BitSum1(1) == 0x0420_0080
    ensures BitSigma0(1) == 0x0200_4000 && BitSigma0(0x8000_0000) == 0x1100_2000
    ensures BitSigma1(1) == 0x0000_A000 && BitSigma1(0x8000_0000) == 0x0020_5000
  {
  }

  lemma RotationsAreShifts(x: word)
    ensures RotSum0(x) == Sum0(x) && RotSum1(x) == Sum1(x)
    ensures RotSigma0(x) == Sigma0(x) && RotSigma1(x) == Sigma1(x)
  {
    hide BitSum0, BitSum1, BitSigma0, BitSigma1, BitRotSum0, BitRotSum1, BitRotSigma0, BitRotSigma1;
    BitRotations(x as bv32);
  }

  lemma PlusIs(x: word, y: word)
    ensures Plus(x, y) == if x + y < TWO_32 then x + y else x + y - TWO_32
  {
  }

  lemma PlusAssociates(x: word, y: word, z: word)
    ensures Plus(Plus(x, y), z) == Plus(x, Plus(y, z))
  {
    hide Plus;
    PlusIs(x, y);
    PlusIs(y, z);
    PlusIs(Plus(x, y), z);
    PlusIs(x, Plus(y, z));
  }

  lemma PlusCommutes(x: word, y: word)
    ensures Plus(x, y) == Plus(y, x)
  {
  }

  lemma AddReordered(a: word, b: word, c: word, d: word)
    ensures Plus(Plus(Plus(a, b), c), d) == Plus(Plus(Plus(d, c), b), a)
  {
    hide Plus;
    PlusCommutes(Plus(Plus(a, b), c), d);
    PlusCommutes(Plus(a, b), c);
    PlusAssociates(d, c, Plus(a, b));
    PlusCommutes(a, b);
    PlusAssociates(Plus(d, c), b, a);
  }

  lemma AlignedMeans(n: nat, k: nat)
    ensures Aligned(n, k) <==> (n + 1 + k) % 64 == 56
  {
  }

  method Pad(data: seq<byte>) returns (msg: seq<byte>)
    ensures msg == Padded(data) && |msg| % 64 == 0
  {
    hide ZeroCount, BigEndian, Aligned;
    PaddedLength(data);
    var bitLen := 8 * |data| % TWO_64;
    msg := data + [0x80];
    ghost var k := 0;
    assert msg == data + [0x80] + Zeros(0);
    while |msg| % 64 != 56
      invariant k <= ZeroCount(|data|) && msg == data + [0x80] + Zeros(k)
      decreases ZeroCount(|data|) - k
    {
      AlignedMeans(|data|, k);
      msg := msg + [0];
      k := k + 1;
    }
    AlignedMeans(|data|, k);
    assert k == ZeroCount(|data|);
    msg := msg + BigEndian(bitLen, 8);
  }

  method FillSchedule(msg: seq<byte>, i: nat, w: array<word>)
    requires 64 * (i + 1) <= |msg| && w.Length == 64
    modifies w
    ensures forall t :: 0 <= t < 64 ==> w[t] == Schedule(msg, i, t)
  {
    hide Schedule, NextWord, WordOf;
    for t := 0 to 16
      invariant forall j :: 0 <= j < t ==> w[j] == Schedule(msg, i, j)
    {
      FirstWords(msg, i, t);
      w[t] := WordOf(msg[64 * i + 4 * t..64 * i + 4 * t + 4]);
    }
    for t := 16 to 64
      invariant forall j :: 0 <= j < t ==> w[j] == Schedule(msg, i, j)
    {
      NextWordIsScheduled(msg, i, t);
      w[t] := NextWord(w[t - 16], w[t - 15], w[t - 7], w[t - 2]);
    }
  }

  lemma FirstWords(msg: seq<byte>, i: nat, t: nat)
    requires 64 * (i + 1) <= |msg| && t < 16
    ensures Schedule(msg, i, t) == WordOf(msg[64 * i + 4 * t..64 * i + 4 * t + 4])
  {
    hide Plus, WordOf, Sigma0, Sigma1;
  }

  function NextWord(w16: word, w15: word, w7: word, w2: word): word {
    Plus(Plus(Plus(w16, RotSigma0(w15)), w7), RotSigma1(w2))
  }

  lemma NextWordIs(w16: word, w15: word, w7: word, w2: word)
    ensures NextWord(w16, w15, w7, w2) == Plus(Plus(Plus(Sigma1(w2), w7), Sigma0(w15)), w16)
  {
    hide Plus, RotSigma0, RotSigma1, Sigma0, Sigma1, RotSum0, RotSum1, Sum0, Sum1;
    RotationsAreShifts(w15);
    RotationsAreShifts(w2);
    AddReordered(w16, Sigma0(w15), w7, Sigma1(w2));
  }

  lemma NextWordIsScheduled(msg: seq<byte>, i: nat, t: nat)
    requires 64 * (i + 1) <= |msg| && t >= 16
    ensures Schedule(msg, i, t)
         == NextWord(Schedule(msg, i, t - 16), Schedule(msg, i, t - 15), Schedule(msg, i, t - 7), Schedule(msg, i, t - 2))
  {
    hide Plus, NextWord, Sigma0, Sigma1, Schedule;
    ScheduleUnfolds(msg, i, t);
    NextWordIs(Schedule(msg, i, t - 16), Schedule(msg, i, t - 15), Schedule(msg, i, t - 7), Schedule(msg, i, t - 2));
  }

  lemma ScheduleUnfolds(msg: seq<byte>, i: nat, t: nat)
    requires 64 * (i + 1) <= |msg| && t >= 16
    ensures Schedule(msg, i, t)
         == Plus(Plus(Plus(Sigma1(Schedule(msg, i, t - 2)), Schedule(msg, i, t - 7)),
                      Sigma0(Schedule(msg, i, t - 15))), Schedule(msg, i, t - 16))
  {
    hide Plus, Sigma0, Sigma1, WordOf, BlockWord;
  }

  /** One iteration of the compression loop: eight variables rotated by assignment. */
  method Rotate(s: State, k: word, w: word) returns (r: State)
    ensures r == Round(s, k, w)
  {
    var a, b, c, d, e, f, g, hh := s.a, s.b, s.c, s.d, s.e, s.f, s.g, s.h;
    hide Plus, RotSum0, RotSum1, Sum0, Sum1, RotSigma0, RotSigma1, Sigma0, Sigma1;
    RotationsAreShifts(e);
    RotationsAreShifts(a);
    var s1 := RotSum1(e);
    var ch := Ch(e, f, g);
    var temp1 := Plus(Plus(Plus(Plus(hh, s1), ch), k), w);
    var s0 := RotSum0(a);
    var maj := Maj(a, b, c);
    var temp2 := Plus(s0, maj);
    hh := g;
    g := f;
    f := e;
    e := Plus(d, temp1);
    d := c;
    c := b;
    b := a;
    a := Plus(temp1, temp2);
    r := State(a, b, c, d, e, f, g, hh);
  }

  function StateOf(h: array<word>): State
    requires h.Length == 8
    reads h
  {
    State(h[0], h[1], h[2], h[3], h[4], h[5], h[6], h[7])
  }

  /** The eight additions that close a block. */
  method AddInto(h: array<word>, s: State)
    requires h.Length == 8
    modifies h
    ensures StateOf(h) == Add(s, old(StateOf(h)))
  {
    hide Plus;
    AddCommutes(s, StateOf(h));
    h[0], h[1], h[2], h[3] := Plus(h[0], s.a), Plus(h[1], s.b), Plus(h[2], s.c), Plus(h[3], s.d);
    h[4], h[5], h[6], h[7] := Plus(h[4], s.e), Plus(h[5], s.f), Plus(h[6], s.g), Plus(h[7], s.h);
  }

  method Compress(msg: seq<byte>, i: nat, h: array<word>, w: array<word>)
    requires 64 * (i + 1) <= |msg| && h.Length == 8 && w.Length == 64 && h != w
    requires StateOf(h) == Hashed(msg, i)
    modifies h, w
    ensures StateOf(h) == Hashed(msg, i + 1)
  {
    hide Round, Schedule, Hashed, Add, Rounds;
    FillSchedule(msg, i, w);
    var s := StateOf(h);
    ghost var start := s;
    RoundsZero(msg, i, start);
    for t := 0 to 64
      invariant s == Rounds(msg, i, start, t)
      invariant StateOf(h) == start
      invariant forall j :: 0 <= j < 64 ==> w[j] == Schedule(msg, i, j)
    {
      RoundsNext(msg, i, start, t);
      s := Rotate(s, K[t], w[t]);
    }
    AddInto(h, s);
    HashedNext(msg, i);
  }

  lemma RoundsZero(msg: seq<byte>, i: nat, start: State)
    requires 64 * (i + 1) <= |msg|
    ensures Rounds(msg, i, start, 0) == start
  {
  }

  lemma RoundsNext(msg: seq<byte>, i: nat, start: State, t: nat)
    requires 64 * (i + 1) <= |msg| && t < 64
    ensures Rounds(msg, i, start, t + 1) == Round(Rounds(msg, i, start, t), K[t], Schedule(msg, i, t))
  {
    hide Round, Schedule;
  }

  lemma HashedNext(msg: seq<byte>, i: nat)
    requires 64 * (i + 1) <= |msg|
    ensures Hashed(msg, i + 1) == Add(Rounds(msg, i, Hashed(msg, i), 64), Hashed(msg, i))
  {
    hide Rounds, Add;
  }

  lemma AddCommutes(x: State, y: State)
    ensures Add(x, y) == Add(y, x)
  {
    hide Plus;
    PlusCommutes(x.a, y.a);
    PlusCommutes(x.b, y.b);
    PlusCommutes(x.c, y.c);
    PlusCommutes(x.d, y.d);
    PlusCommutes(x.e, y.e);
    PlusCommutes(x.f, y.f);
    PlusCommutes(x.g, y.g);
    PlusCommutes(x.h, y.h);
  }

  /** The eight words printed in order. */
  method FormatHex(h: array<word>) returns (hex: string)
    requires h.Length == 8
    ensures hex == HexState(StateOf(h))
  {
    hide HexWord;
    hex := "";
    for j := 0 to 8
      invariant hex == HexPrefix(h[..], j)
    {
      hex := hex + HexWord(h[j]);
    }
    HexPrefixIsState(h[..]);
  }

  function HexPrefix(words: seq<word>, n: nat): string
    requires n <= |words|
  {
    if n == 0 then "" else HexPrefix(words, n - 1) + HexWord(words[n - 1])
  }

  lemma HexPrefixIsState(v: seq<word>)
    requires |v| == 8
    ensures HexPrefix(v, 8) == HexState(State(v[0], v[1], v[2], v[3], v[4], v[5], v[6], v[7]))
  {
    hide HexWord;
    assert HexPrefix(v, 1) == HexWord(v[0]);
    assert HexPrefix(v, 3) == HexWord(v[0]) + HexWord(v[1]) + HexWord(v[2]);
    assert HexPrefix(v, 5) == HexPrefix(v, 3) + HexWord(v[3]) + HexWord(v[4]);
    assert HexPrefix(v, 7) == HexPrefix(v, 5) + HexWord(v[5]) + HexWord(v[6]);
  }

  /** The build script's SHA-256 computes the standard's digest of every input. */
  method ComputeSha256Hex(data: seq<byte>) returns (hex: string)
    ensures hex == Digest(data)
  {
    hide Hashed, HexState, Padded;
    var h := new word[8];
    h[0], h[1], h[2], h[3] := 0x6a09e667, 0xbb67ae85, 0x3c6ef372, 0xa54ff53a;
    h[4], h[5], h[6], h[7] := 0x510e527f, 0x9b05688c, 0x1f83d9ab, 0x5be0cd19;
    var msg := Pad(data);
    var w := new word[64];
    HashedZero(msg);
    for i := 0 to |msg| / 64
      invariant StateOf(h) == Hashed(msg, i)
    {
      Compress(msg, i, h, w);
    }
    hex := FormatHex(h);
  }

  lemma HashedZero(msg: seq<byte>)
    ensures Hashed(msg, 0) == INITIAL
  {
  }
}
