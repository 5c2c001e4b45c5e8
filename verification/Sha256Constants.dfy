/**
 Where the constants of SHA-256 come from: sections 4.2.2 and 5.3.3 of FIPS 180-4 define them as the
 first 32 bits of the fractional parts of the cube roots of the first 64 primes, and of the square
 roots of the first eight.
 */
module Sha256Constants {
  import opened Sha256
  import opened Wrappers
  import opened Arithmetic

  // The primes, eight to a row.

  const P0: seq<nat> := [2, 3, 5, 7, 11, 13, 17, 19]
  const P1: seq<nat> := [23, 29, 31, 37, 41, 43, 47, 53]
  const P2: seq<nat> := [59, 61, 67, 71, 73, 79, 83, 89]
  const P3: seq<nat> := [97, 101, 103, 107, 109, 113, 127, 131]
  const P4: seq<nat> := [137, 139, 149, 151, 157, 163, 167, 173]
  const P5: seq<nat> := [179, 181, 191, 193, 197, 199, 211, 223]
  const P6: seq<nat> := [227, 229, 233, 239, 241, 251, 257, 263]
  const P7: seq<nat> := [269, 271, 277, 281, 283, 293, 307, 311]

  const PRIMES: seq<nat> := P0 + P1 + P2 + P3 + P4 + P5 + P6 + P7

  // ---------------------------------------------------------------------
  // The list is that of the first 64 primes
  // ---------------------------------------------------------------------

  ghost predicate IsPrime(n: nat) {
    n >= 2 && forall d :: 2 <= d < n ==> n % d != 0
  }

  /** No prime below 18 divides `n`, unless it is `n`. */
  predicate Sifted(n: nat) {
    && n >= 2
    && (n == 2 || n % 2 != 0) && (n == 3 || n % 3 != 0) && (n == 5 || n % 5 != 0) && (n == 7 || n % 7 != 0)
    && (n == 11 || n % 11 != 0) && (n == 13 || n % 13 != 0) && (n == 17 || n % 17 != 0)
  }

  /** A multiple of a prime below 18, other than the prime itself, does not survive. */
  lemma MultipleIsNotSifted(p: nat, m: nat)
    requires p in {2, 3, 5, 7, 11, 13, 17} && p * m > p
    ensures !Sifted(p * m)
  {
    MultipleHasNoRemainder(p, m);
  }

  lemma DivisorOf(p: nat, e: nat, q: nat)
    requires p in {2, 3, 5, 7, 11, 13, 17} && (p * e) * q > p
    ensures !Sifted((p * e) * q)
  {
    hide Sifted;
    assert p * (e * q) == (p * e) * q;
    MultipleIsNotSifted(p, e * q);
  }

  /** Whatever has a divisor below 18 has a prime one. */
  lemma SmallDivisor(d: nat, q: nat)
    requires 2 <= d < 18 && d < d * q
    ensures !Sifted(d * q)
  {
    hide Sifted;
    if d == 2 {
      DivisorOf(2, 1, q);
    } else if d == 3 {
      DivisorOf(3, 1, q);
    } else if d == 4 {
      DivisorOf(2, 2, q);
    } else if d == 5 {
      DivisorOf(5, 1, q);
    } else if d == 6 {
      DivisorOf(2, 3, q);
    } else if d == 7 {
      DivisorOf(7, 1, q);
    } else if d == 8 {
      DivisorOf(2, 4, q);
    } else if d == 9 {
      DivisorOf(3, 3, q);
    } else if d == 10 {
      DivisorOf(2, 5, q);
    } else if d == 11 {
      DivisorOf(11, 1, q);
    } else if d == 12 {
      DivisorOf(2, 6, q);
    } else if d == 13 {
      DivisorOf(13, 1, q);
    } else if d == 14 {
      DivisorOf(2, 7, q);
    } else if d == 15 {
      DivisorOf(3, 5, q);
    } else if d == 16 {
      DivisorOf(2, 8, q);
    } else if d == 17 {
      DivisorOf(17, 1, q);
    }
  }

  lemma FactorBound(d: nat, q: nat)
    requires d >= 18 && q >= 18
    ensures d * q >= 324
  {
    assert d * q >= 18 * q;
  }

  lemma AtLeastTwice(d: nat, q: nat)
    requires d >= 2
    ensures d * q >= 2 * q
  {
    assert d * q == 2 * q + (d - 2) * q;
  }

  lemma Quotient(n: nat, d: nat)
    requires 2 <= d < n && n % d == 0
    ensures n == d * (n / d) && 2 <= n / d < n
  {
    var q := n / d;
    AtLeastTwice(d, q);
    assert q == 0 ==> d * q == 0;
    assert q == 1 ==> d * q == d;
  }

  lemma NoDivisor(n: nat, d: nat)
    requires Sifted(n) && n < 324 && 2 <= d < n
    ensures n % d != 0
  {
    hide Sifted;
    if n % d == 0 {
      var q := n / d;
      Quotient(n, d);
      if d < 18 {
        SmallDivisor(d, q);
      } else if q < 18 {
        Commutes(d, q);
        SmallDivisor(q, d);
      } else {
        FactorBound(d, q);
      }
      assert false;
    }
  }

  lemma Commutes(d: nat, q: nat)
    ensures d * q == q * d
  {
  }

  /** Below 18 squared, sifting finds exactly the primes. */
  lemma SiftedIsPrime(n: nat)
    requires n < 324
    ensures Sifted(n) <==> IsPrime(n)
  {
    if Sifted(n) {
      forall d | 2 <= d < n
        ensures n % d != 0
      {
        NoDivisor(n, d);
      }
    } else if IsPrime(n) {
      PrimeIsSifted(n);
    }
  }

  lemma PrimeIsSifted(n: nat)
    requires IsPrime(n)
    ensures Sifted(n)
  {
    forall p | p in {2, 3, 5, 7, 11, 13, 17}
      ensures n == p || n % p != 0
    {
      if p < n {
        assert n % p != 0;
      } else if p > n {
        SmallRemainder(n, p);
      }
    }
  }

  lemma SmallRemainder(n: nat, p: nat)
    requires 0 < n < p
    ensures n % p != 0
  {
  }

  /** Nothing from `lo` up to `hi` survives sifting. */
  predicate NoneSifted(lo: nat, hi: nat)
    decreases hi - lo
  {
    lo >= hi || (!Sifted(lo) && NoneSifted(lo + 1, hi))
  }

  lemma {:induction false} NoneSiftedMeans(lo: nat, hi: nat, n: nat)
    requires NoneSifted(lo, hi) && lo <= n < hi
    ensures !Sifted(n)
    decreases hi - lo
  {
    hide Sifted;
    if n > lo {
      NoneSiftedMeans(lo + 1, hi, n);
    }
  }

  /** Two neighbours of the list: both survive, and nothing between them does. */
  predicate Gap(p: nat, q: nat) {
    p < q && Sifted(p) && Sifted(q) && NoneSifted(p + 1, q)
  }

  lemma Gaps1()
    ensures Gap(2, 3)
         && Gap(3, 5)
         && Gap(5, 7)
         && Gap(7, 11)
  {
  }

  lemma Gaps2()
    ensures Gap(11, 13)
         && Gap(13, 17)
         && Gap(17, 19)
         && Gap(19, 23)
  {
  }

  lemma Gaps3()
    ensures Gap(23, 29)
         && Gap(29, 31)
         && Gap(31, 37)
         && Gap(37, 41)
  {
  }

  lemma Gaps4()
    ensures Gap(41, 43)
         && Gap(43, 47)
         && Gap(47, 53)
         && Gap(53, 59)
  {
  }

  lemma Gaps5()
    ensures Gap(59, 61)
         && Gap(61, 67)
         && Gap(67, 71)
         && Gap(71, 73)
  {
  }

  lemma Gaps6()
    ensures Gap(73, 79)
         && Gap(79, 83)
         && Gap(83, 89)
         && Gap(89, 97)
  {
  }

  lemma Gaps7()
    ensures Gap(97, 101)
         && Gap(101, 103)
         && Gap(103, 107)
         && Gap(107, 109)
  {
  }

  lemma Gaps8()
    ensures Gap(109, 113)
         && Gap(113, 127)
         && Gap(127, 131)
         && Gap(131, 137)
  {
  }

  lemma Gaps9()
    ensures Gap(137, 139)
         && Gap(139, 149)
         && Gap(149, 151)
         && Gap(151, 157)
  {
  }

  lemma Gaps10()
    ensures Gap(157, 163)
         && Gap(163, 167)
         && Gap(167, 173)
         && Gap(173, 179)
  {
  }

  lemma Gaps11()
    ensures Gap(179, 181)
         && Gap(181, 191)
         && Gap(191, 193)
         && Gap(193, 197)
  {
  }

  lemma Gaps12()
    ensures Gap(197, 199)
         && Gap(199, 211)
         && Gap(211, 223)
         && Gap(223, 227)
  {
  }

  lemma Gaps13()
    ensures Gap(227, 229)
         && Gap(229, 233)
         && Gap(233, 239)
         && Gap(239, 241)
  {
  }

  lemma Gaps14()
    ensures Gap(241, 251)
         && Gap(251, 257)
         && Gap(257, 263)
         && Gap(263, 269)
  {
  }

  lemma Gaps15()
    ensures Gap(269, 271)
         && Gap(271, 277)
         && Gap(277, 281)
         && Gap(281, 283)
  {
  }

  lemma Gaps16()
    ensures Gap(283, 293)
         && Gap(293, 307)
         && Gap(307, 311)
  {
  }

  ghost predicate Neighbours(ps: seq<nat>) {
    forall i :: 0 <= i < |ps| - 1 ==> Gap(ps[i], ps[i + 1])
  }

  lemma NeighboursConcat(a: seq<nat>, b: seq<nat>)
    requires a != [] && b != [] && Neighbours(a) && Neighbours(b) && Gap(Last(a), b[0])
    ensures Neighbours(a + b)
  {
    hide Gap;
    var ps := a + b;
    forall i | 0 <= i < |ps| - 1
      ensures Gap(ps[i], ps[i + 1])
    {
      if i >= |a| {
        assert Gap(b[i - |a|], b[i - |a| + 1]);
      } else if i == |a| - 1 {
        assert ps[i] == Last(a) && ps[i + 1] == b[0];
      }
    }
  }

  lemma Row0()
    ensures |P0| == 8 && Neighbours(P0) && Gap(P0[7], P1[0])
  {
    hide Gap;
    Gaps1();
    Gaps2();
  }

  lemma Row1()
    ensures |P1| == 8 && Neighbours(P1) && Gap(P1[7], P2[0])
  {
    hide Gap;
    Gaps3();
    Gaps4();
  }

  lemma Row2()
    ensures |P2| == 8 && Neighbours(P2) && Gap(P2[7], P3[0])
  {
    hide Gap;
    Gaps5();
    Gaps6();
  }

  lemma Row3()
    ensures |P3| == 8 && Neighbours(P3) && Gap(P3[7], P4[0])
  {
    hide Gap;
    Gaps7();
    Gaps8();
  }

  lemma Row4()
    ensures |P4| == 8 && Neighbours(P4) && Gap(P4[7], P5[0])
  {
    hide Gap;
    Gaps9();
    Gaps10();
  }

  lemma Row5()
    ensures |P5| == 8 && Neighbours(P5) && Gap(P5[7], P6[0])
  {
    hide Gap;
    Gaps11();
    Gaps12();
  }

  lemma Row6()
    ensures |P6| == 8 && Neighbours(P6) && Gap(P6[7], P7[0])
  {
    hide Gap;
    Gaps13();
    Gaps14();
  }

  lemma Row7()
    ensures |P7| == 8 && Neighbours(P7)
  {
    hide Gap;
    Gaps15();
    Gaps16();
  }

  lemma AllNeighbours()
    ensures |PRIMES| == 64 && PRIMES[0] == 2 && PRIMES[63] == 311 && Neighbours(PRIMES)
  {
    FirstAndLast();
    hide Gap, Neighbours, P0, P1, P2, P3, P4, P5, P6, P7;
    Row0();
    Row1();
    Row2();
    Row3();
    Row4();
    Row5();
    Row6();
    Row7();
    NeighboursConcat(P0, P1);
    NeighboursConcat(P0 + P1, P2);
    NeighboursConcat(P0 + P1 + P2, P3);
    NeighboursConcat(P0 + P1 + P2 + P3, P4);
    NeighboursConcat(P0 + P1 + P2 + P3 + P4, P5);
    NeighboursConcat(P0 + P1 + P2 + P3 + P4 + P5, P6);
    NeighboursConcat(P0 + P1 + P2 + P3 + P4 + P5 + P6, P7);
  }

  lemma FirstAndLast()
    ensures |P0| == 8 && |P7| == 8 && P0[0] == 2 && P7[7] == 311
  {
  }

  lemma {:induction false} SiftedAreListed(ps: seq<nat>, n: nat, i: nat)
    requires Neighbours(ps) && i < |ps| && ps[0] == 2 && n <= ps[i]
    ensures Sifted(n) <==> exists j :: 0 <= j <= i && ps[j] == n
    decreases i
  {
    OnlyTwo(n);
    hide Sifted, NoneSifted;
    if i > 0 {
      assert Gap(ps[i - 1], ps[i]);
      Increasing(ps, i);
      if n <= ps[i - 1] {
        SiftedAreListed(ps, n, i - 1);
      } else if n < ps[i] {
        NoneSiftedMeans(ps[i - 1] + 1, ps[i], n);
        Increasing(ps, i - 1);
      }
    }
  }

  lemma OnlyTwo(n: nat)
    ensures n <= 2 ==> (Sifted(n) <==> n == 2)
  {
  }

  lemma {:induction false} Increasing(ps: seq<nat>, i: nat)
    requires Neighbours(ps) && i < |ps|
    ensures forall j :: 0 <= j < i ==> ps[j] < ps[i]
    decreases i
  {
    hide Sifted, NoneSifted;
    if i > 0 {
      Increasing(ps, i - 1);
      assert Gap(ps[i - 1], ps[i]);
    }
  }

  /** The list holds exactly the primes up to 311, in increasing order, and there are 64 of them. */
  lemma FirstPrimes(n: nat)
    requires n <= 311
    ensures |PRIMES| == 64 && PRIMES[63] == 311
    ensures IsPrime(n) <==> n in PRIMES
    ensures forall i :: 0 <= i < 63 ==> PRIMES[i] < PRIMES[i + 1]
  {
    hide Sifted, IsPrime, PRIMES;
    AllNeighbours();
    SiftedIsPrime(n);
    SiftedAreListed(PRIMES, n, 63);
    Increasing(PRIMES, 63);
    forall i | 0 <= i < 63
      ensures PRIMES[i] < PRIMES[i + 1]
    {
      assert Gap(PRIMES[i], PRIMES[i + 1]);
    }
  }

  // ---------------------------------------------------------------------
  // Roots
  // ---------------------------------------------------------------------

  function WholeCubeRoot(p: nat): nat
    requires p < 343
  {
    if p < 1 then 0 else if p < 8 then 1 else if p < 27 then 2 else if p < 64 then 3
    else if p < 125 then 4 else if p < 216 then 5 else 6
  }

  /** `k` is the first 32 bits behind the point of the cube root of `p`. */
  predicate CubeRootBits(p: nat, k: nat) {
    && p < 343
    && var c := WholeCubeRoot(p);
       var r := c * 0x1_0000_0000 + k;
       && c * c * c <= p < (c + 1) * (c + 1) * (c + 1)
       && r * r * r <= p * 0x1_0000_0000_0000_0000_0000_0000 < (r + 1) * (r + 1) * (r + 1)
  }

  predicate SquareRootBits(p: nat, c: nat, h: nat) {
    && c * c <= p < (c + 1) * (c + 1)
    && var r := c * 0x1_0000_0000 + h;
       r * r <= p * 0x1_0000_0000_0000_0000 < (r + 1) * (r + 1)
  }

  lemma Roots1()
    ensures CubeRootBits(2, 0x428a2f98)
         && CubeRootBits(3, 0x71374491)
         && CubeRootBits(5, 0xb5c0fbcf)
         && CubeRootBits(7, 0xe9b5dba5)
  {
  }

  lemma Roots2()
    ensures CubeRootBits(11, 0x3956c25b)
         && CubeRootBits(13, 0x59f111f1)
         && CubeRootBits(17, 0x923f82a4)
         && CubeRootBits(19, 0xab1c5ed5)
  {
  }

  lemma Roots3()
    ensures CubeRootBits(23, 0xd807aa98)
         && CubeRootBits(29, 0x12835b01)
         && CubeRootBits(31, 0x243185be)
         && CubeRootBits(37, 0x550c7dc3)
  {
  }

  lemma Roots4()
    ensures CubeRootBits(41, 0x72be5d74)
         && CubeRootBits(43, 0x80deb1fe)
         && CubeRootBits(47, 0x9bdc06a7)
         && CubeRootBits(53, 0xc19bf174)
  {
  }

  lemma Roots5()
    ensures CubeRootBits(59, 0xe49b69c1)
         && CubeRootBits(61, 0xefbe4786)
         && CubeRootBits(67, 0x0fc19dc6)
         && CubeRootBits(71, 0x240ca1cc)
  {
  }

  lemma Roots6()
    ensures CubeRootBits(73, 0x2de92c6f)
         && CubeRootBits(79, 0x4a7484aa)
         && CubeRootBits(83, 0x5cb0a9dc)
         && CubeRootBits(89, 0x76f988da)
  {
  }

  lemma Roots7()
    ensures CubeRootBits(97, 0x983e5152)
         && CubeRootBits(101, 0xa831c66d)
         && CubeRootBits(103, 0xb00327c8)
         && CubeRootBits(107, 0xbf597fc7)
  {
  }

  lemma Roots8()
    ensures CubeRootBits(109, 0xc6e00bf3)
         && CubeRootBits(113, 0xd5a79147)
         && CubeRootBits(127, 0x06ca6351)
         && CubeRootBits(131, 0x14292967)
  {
  }

  lemma Roots9()
    ensures CubeRootBits(137, 0x27b70a85)
         && CubeRootBits(139, 0x2e1b2138)
         && CubeRootBits(149, 0x4d2c6dfc)
         && CubeRootBits(151, 0x53380d13)
  {
  }

  lemma Roots10()
    ensures CubeRootBits(157, 0x650a7354)
         && CubeRootBits(163, 0x766a0abb)
         && CubeRootBits(167, 0x81c2c92e)
         && CubeRootBits(173, 0x92722c85)
  {
  }

  lemma Roots11()
    ensures CubeRootBits(179, 0xa2bfe8a1)
         && CubeRootBits(181, 0xa81a664b)
         && CubeRootBits(191, 0xc24b8b70)
         && CubeRootBits(193, 0xc76c51a3)
  {
  }

  lemma Roots12()
    ensures CubeRootBits(197, 0xd192e819)
         && CubeRootBits(199, 0xd6990624)
         && CubeRootBits(211, 0xf40e3585)
         && CubeRootBits(223, 0x106aa070)
  {
  }

  lemma Roots13()
    ensures CubeRootBits(227, 0x19a4c116)
         && CubeRootBits(229, 0x1e376c08)
         && CubeRootBits(233, 0x2748774c)
         && CubeRootBits(239, 0x34b0bcb5)
  {
  }

  lemma Roots14()
    ensures CubeRootBits(241, 0x391c0cb3)
         && CubeRootBits(251, 0x4ed8aa4a)
         && CubeRootBits(257, 0x5b9cca4f)
         && CubeRootBits(263, 0x682e6ff3)
  {
  }

  lemma Roots15()
    ensures CubeRootBits(269, 0x748f82ee)
         && CubeRootBits(271, 0x78a5636f)
         && CubeRootBits(277, 0x84c87814)
         && CubeRootBits(281, 0x8cc70208)
  {
  }

  lemma Roots16()
    ensures CubeRootBits(283, 0x90befffa)
         && CubeRootBits(293, 0xa4506ceb)
         && CubeRootBits(307, 0xbef9a3f7)
         && CubeRootBits(311, 0xc67178f2)
  {
  }

  ghost predicate AllRoots(ps: seq<nat>, ks: seq<word>) {
    |ps| == |ks| && forall i :: 0 <= i < |ps| ==> CubeRootBits(ps[i], ks[i])
  }

  lemma AllRootsConcat(ps: seq<nat>, ks: seq<word>, qs: seq<nat>, ls: seq<word>)
    requires AllRoots(ps, ks) && AllRoots(qs, ls)
    ensures AllRoots(ps + qs, ks + ls)
  {
    hide CubeRootBits;
  }

  lemma RootsOfRow0()
    ensures AllRoots(P0, K0)
  {
    hide CubeRootBits;
    Roots1();
    Roots2();
  }

  lemma RootsOfRow1()
    ensures AllRoots(P1, K1)
  {
    hide CubeRootBits;
    Roots3();
    Roots4();
  }

  lemma RootsOfRow2()
    ensures AllRoots(P2, K2)
  {
    hide CubeRootBits;
    Roots5();
    Roots6();
  }

  lemma RootsOfRow3()
    ensures AllRoots(P3, K3)
  {
    hide CubeRootBits;
    Roots7();
    Roots8();
  }

  lemma RootsOfRow4()
    ensures AllRoots(P4, K4)
  {
    hide CubeRootBits;
    Roots9();
    Roots10();
  }

  lemma RootsOfRow5()
    ensures AllRoots(P5, K5)
  {
    hide CubeRootBits;
    Roots11();
    Roots12();
  }

  lemma RootsOfRow6()
    ensures AllRoots(P6, K6)
  {
    hide CubeRootBits;
    Roots13();
    Roots14();
  }

  lemma RootsOfRow7()
    ensures AllRoots(P7, K7)
  {
    hide CubeRootBits;
    Roots15();
    Roots16();
  }

  /** Section 4.2.2: the round constants. */
  lemma RoundConstants()
    ensures AllRoots(PRIMES, K)
  {
    hide AllRoots, P0, P1, P2, P3, P4, P5, P6, P7, K0, K1, K2, K3, K4, K5, K6, K7;
    RootsOfRow0();
    RootsOfRow1();
    RootsOfRow2();
    RootsOfRow3();
    RootsOfRow4();
    RootsOfRow5();
    RootsOfRow6();
    RootsOfRow7();
    AllRootsConcat(P0, K0, P1, K1);
    AllRootsConcat(P0 + P1, K0 + K1, P2, K2);
    AllRootsConcat(P0 + P1 + P2, K0 + K1 + K2, P3, K3);
    AllRootsConcat(P0 + P1 + P2 + P3, K0 + K1 + K2 + K3, P4, K4);
    AllRootsConcat(P0 + P1 + P2 + P3 + P4, K0 + K1 + K2 + K3 + K4, P5, K5);
    AllRootsConcat(P0 + P1 + P2 + P3 + P4 + P5, K0 + K1 + K2 + K3 + K4 + K5, P6, K6);
    AllRootsConcat(P0 + P1 + P2 + P3 + P4 + P5 + P6, K0 + K1 + K2 + K3 + K4 + K5 + K6, P7, K7);
  }

  /** Section 5.3.3: the initial hash value. */
  lemma InitialHashValue()
    ensures SquareRootBits(2, 1, INITIAL.a) && SquareRootBits(3, 1, INITIAL.b) && SquareRootBits(5, 2, INITIAL.c)
    ensures SquareRootBits(7, 2, INITIAL.d) && SquareRootBits(11, 3, INITIAL.e) && SquareRootBits(13, 3, INITIAL.f)
    ensures SquareRootBits(17, 4, INITIAL.g) && SquareRootBits(19, 4, INITIAL.h)
    ensures P0 == [2, 3, 5, 7, 11, 13, 17, 19]
  {
  }
}
