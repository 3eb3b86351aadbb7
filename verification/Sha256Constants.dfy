/**
 What the constants of SHA-256 are, sections 4.2.2 and 5.3.3 of FIPS 180-4: the first thirty-two bits
 of the fractional parts of the cube roots of the first sixty-four primes, and of the square roots of
 the first eight.
 */
module Sha256Constants {
  import opened Base256
  import opened Sha256Spec

  ghost predicate Prime(p: nat) {
    p > 1 && forall d :: 1 < d < p ==> p % d != 0
  }

  /** No prime lies between. */
  ghost predicate NextPrime(p: nat, q: nat) {
    p < q && Prime(q) && forall n: nat :: p < n < q ==> !Prime(n)
  }

  const P_0: seq<nat> := [2, 3, 5, 7, 11, 13, 17, 19]
  const P_1: seq<nat> := [23, 29, 31, 37, 41, 43, 47, 53]
  const P_2: seq<nat> := [59, 61, 67, 71, 73, 79, 83, 89]
  const P_3: seq<nat> := [97, 101, 103, 107, 109, 113, 127, 131]
  const P_4: seq<nat> := [137, 139, 149, 151, 157, 163, 167, 173]
  const P_5: seq<nat> := [179, 181, 191, 193, 197, 199, 211, 223]
  const P_6: seq<nat> := [227, 229, 233, 239, 241, 251, 257, 263]
  const P_7: seq<nat> := [269, 271, 277, 281, 283, 293, 307, 311]

  const PRIMES: seq<nat> := P_0 + P_1 + P_2 + P_3 + P_4 + P_5 + P_6 + P_7

  // ---------------------------------------------------------------- primes

  /** None of the primes up to 17 divides the number, unless it is that prime. */
  predicate Sieved(n: nat) {
    && (n % 2 != 0 || n == 2) && (n % 3 != 0 || n == 3) && (n % 5 != 0 || n == 5) && (n % 7 != 0 || n == 7)
    && (n % 11 != 0 || n == 11) && (n % 13 != 0 || n == 13) && (n % 17 != 0 || n == 17)
  }

  lemma Divides(n: nat, m: nat, q: nat)
    requires m > 0 && q > 0 && n % m == 0 && m % q == 0
    ensures n % q == 0
  {
    var k, l := n / m, m / q;
    assert n == k * m && m == l * q;
    assert n == (k * l) * q by {
      assert k * (l * q) == (k * l) * q;
    }
    MultipleOf(k * l, q);
  }

  lemma MultipleOf(k: nat, q: nat)
    requires q > 0
    ensures (k * q) % q == 0
  {
    var t, r := k * q / q, (k * q) % q;
    assert k * q == q * t + r;
    assert q * (k - t) == r;
    NoneBetween(q, k - t);
  }

  /** No multiple of q lies strictly between zero and q. */
  lemma NoneBetween(q: nat, k: int)
    ensures q * k <= 0 || q * k >= q
  {
    if k > 0 {
      assert q * k >= q * 1;
    }
  }

  /** A divisor up to 18 has one of the small primes in it. */
  lemma SmallDivisor(m: nat) returns (q: nat)
    requires 1 < m <= 18
    ensures q in {2, 3, 5, 7, 11, 13, 17} && q <= m && m % q == 0
  {
    q := if m % 2 == 0 then 2 else if m % 3 == 0 then 3 else if m % 5 == 0 then 5 else m;
  }

  /** Below 19 squared a number with a divisor fails the sieve. */
  lemma DivisorSieved(n: nat, d: nat)
    requires 1 < d < n < 361 && n % d == 0
    ensures !Sieved(n)
  {
    var e := n / d;
    assert n == d * e;
    CofactorSmall(n, d, e);
    var m := if d <= 18 then d else e;
    var q := SmallDivisor(m);
    Divides(n, m, q);
  }

  /** So there the sieve tells the primes. */
  lemma SievedIsPrime(n: nat)
    requires 1 < n < 361
    ensures Sieved(n) <==> Prime(n)
  {
    forall d | 1 < d < n && n % d == 0 ensures !Sieved(n) {
      DivisorSieved(n, d);
    }
  }

  lemma ProductAtLeast(d: nat, e: nat)
    ensures d >= 19 && e >= 19 ==> d * e >= 361
  {
    assert d >= 19 && e >= 19 ==> (d - 19) * (e - 19) >= 0;
  }

  lemma CofactorSmall(n: nat, d: nat, e: nat)
    requires n == d * e && 1 < d < n < 361
    ensures 1 < e < n && n % e == 0 && (d <= 18 || e <= 18)
  {
    assert e * d == n;
    MultipleOf(d, e);
    ProductAtLeast(d, e);
  }

  /** No number from n on, up to q, passes the sieve. */
  predicate NoneFrom(n: nat, q: nat)
    decreases q - n
  {
    n >= q || (!Sieved(n) && NoneFrom(n + 1, q))
  }

  lemma {:induction false} NoneFromMeans(n: nat, q: nat, k: nat)
    requires NoneFrom(n, q) && n <= k < q
    ensures !Sieved(k)
    decreases q - n
  {
    if n < k {
      NoneFromMeans(n + 1, q, k);
    }
  }

  /** One step to the next prime: everything between fails the sieve. */
  lemma NextIs(p: nat, from: nat, q: nat)
    requires 1 < p < q < 361 && Sieved(q) && from == p + 1 && NoneFrom(from, q)
    ensures NextPrime(p, q)
  {
    SievedIsPrime(q);
    forall n: nat | p < n < q ensures !Prime(n) {
      NoneFromMeans(from, q, n);
      SievedIsPrime(n);
    }
  }

  lemma PrimeRow0()
    ensures forall i :: 0 <= i < 7 ==> NextPrime(P_0[i], P_0[i + 1])
  {
    NextIs(2, 3, 3);
    NextIs(3, 4, 5);
    NextIs(5, 6, 7);
    NextIs(7, 8, 11);
    NextIs(11, 12, 13);
    NextIs(13, 14, 17);
    NextIs(17, 18, 19);
  }

  lemma PrimeRow1()
    ensures NextPrime(P_0[7], P_1[0]) && forall i :: 0 <= i < 7 ==> NextPrime(P_1[i], P_1[i + 1])
  {
    NextIs(19, 20, 23);
    NextIs(23, 24, 29);
    NextIs(29, 30, 31);
    NextIs(31, 32, 37);
    NextIs(37, 38, 41);
    NextIs(41, 42, 43);
    NextIs(43, 44, 47);
    NextIs(47, 48, 53);
  }

  lemma PrimeRow2()
    ensures NextPrime(P_1[7], P_2[0]) && forall i :: 0 <= i < 7 ==> NextPrime(P_2[i], P_2[i + 1])
  {
    NextIs(53, 54, 59);
    NextIs(59, 60, 61);
    NextIs(61, 62, 67);
    NextIs(67, 68, 71);
    NextIs(71, 72, 73);
    NextIs(73, 74, 79);
    NextIs(79, 80, 83);
    NextIs(83, 84, 89);
  }

  lemma PrimeRow3()
    ensures NextPrime(P_2[7], P_3[0]) && forall i :: 0 <= i < 7 ==> NextPrime(P_3[i], P_3[i + 1])
  {
    NextIs(89, 90, 97);
    NextIs(97, 98, 101);
    NextIs(101, 102, 103);
    NextIs(103, 104, 107);
    NextIs(107, 108, 109);
    NextIs(109, 110, 113);
    NextIs(113, 114, 127);
    NextIs(127, 128, 131);
  }

  lemma PrimeRow4()
    ensures NextPrime(P_3[7], P_4[0]) && forall i :: 0 <= i < 7 ==> NextPrime(P_4[i], P_4[i + 1])
  {
    NextIs(131, 132, 137);
    NextIs(137, 138, 139);
    NextIs(139, 140, 149);
    NextIs(149, 150, 151);
    NextIs(151, 152, 157);
    NextIs(157, 158, 163);
    NextIs(163, 164, 167);
    NextIs(167, 168, 173);
  }

  lemma PrimeRow5()
    ensures NextPrime(P_4[7], P_5[0]) && forall i :: 0 <= i < 7 ==> NextPrime(P_5[i], P_5[i + 1])
  {
    NextIs(173, 174, 179);
    NextIs(179, 180, 181);
    NextIs(181, 182, 191);
    NextIs(191, 192, 193);
    NextIs(193, 194, 197);
    NextIs(197, 198, 199);
    NextIs(199, 200, 211);
    NextIs(211, 212, 223);
  }

  lemma PrimeRow6()
    ensures NextPrime(P_5[7], P_6[0]) && forall i :: 0 <= i < 7 ==> NextPrime(P_6[i], P_6[i + 1])
  {
    NextIs(223, 224, 227);
    NextIs(227, 228, 229);
    NextIs(229, 230, 233);
    NextIs(233, 234, 239);
    NextIs(239, 240, 241);
    NextIs(241, 242, 251);
    NextIs(251, 252, 257);
    NextIs(257, 258, 263);
  }

  lemma PrimeRow7()
    ensures NextPrime(P_6[7], P_7[0]) && forall i :: 0 <= i < 7 ==> NextPrime(P_7[i], P_7[i + 1])
  {
    NextIs(263, 264, 269);
    NextIs(269, 270, 271);
    NextIs(271, 272, 277);
    NextIs(277, 278, 281);
    NextIs(281, 282, 283);
    NextIs(283, 284, 293);
    NextIs(293, 294, 307);
    NextIs(307, 308, 311);
  }

  // ---------------------------------------------------------------- roots

  const TWO_32: nat := 0x1_0000_0000
  const TWO_96: nat := 0x1_0000_0000_0000_0000_0000_0000

  /** The whole part of the cube root. */
  predicate IsCubeRoot(r: nat, x: nat) {
    r * r * r <= x < (r + 1) * (r + 1) * (r + 1)
  }

  predicate IsSquareRoot(r: nat, x: nat) {
    r * r <= x < (r + 1) * (r + 1)
  }

  /** k is the first thirty-two bits of the fraction of the cube root of p, whose whole part is w. */
  predicate CubeFraction(k: nat, p: nat, w: nat) {
    IsCubeRoot(w * TWO_32 + k, p * TWO_96)
  }

  predicate SquareFraction(k: nat, p: nat, w: nat) {
    IsSquareRoot(w * TWO_32 + k, p * TWO_64)
  }

  ghost predicate IsCubeFraction(k: nat, p: nat) {
    exists w: nat :: CubeFraction(k, p, w)
  }

  ghost predicate IsSquareFraction(k: nat, p: nat) {
    exists w: nat :: SquareFraction(k, p, w)
  }

  ghost predicate CubeRow(ks: seq<word>, ps: seq<nat>) {
    |ks| == |ps| == 8 && forall i :: 0 <= i < 8 ==> IsCubeFraction(ks[i] as nat, ps[i])
  }

  lemma CubeRoot(k: word, p: nat, w: nat, r: nat)
    requires r == w * TWO_32 + k as nat && IsCubeRoot(r, p * TWO_96)
    ensures IsCubeFraction(k as nat, p)
  {
    assert CubeFraction(k as nat, p, w);
  }

  lemma CubeRow0()
    ensures CubeRow(K_0, P_0)
  {
    CubeRoot(0x428a2f98, 2, 1, 0x1_428a2f98);
    CubeRoot(0x71374491, 3, 1, 0x1_71374491);
    CubeRoot(0xb5c0fbcf, 5, 1, 0x1_b5c0fbcf);
    CubeRoot(0xe9b5dba5, 7, 1, 0x1_e9b5dba5);
    CubeRoot(0x3956c25b, 11, 2, 0x2_3956c25b);
    CubeRoot(0x59f111f1, 13, 2, 0x2_59f111f1);
    CubeRoot(0x923f82a4, 17, 2, 0x2_923f82a4);
    CubeRoot(0xab1c5ed5, 19, 2, 0x2_ab1c5ed5);
  }

  lemma CubeRow1()
    ensures CubeRow(K_1, P_1)
  {
    CubeRoot(0xd807aa98, 23, 2, 0x2_d807aa98);
    CubeRoot(0x12835b01, 29, 3, 0x3_12835b01);
    CubeRoot(0x243185be, 31, 3, 0x3_243185be);
    CubeRoot(0x550c7dc3, 37, 3, 0x3_550c7dc3);
    CubeRoot(0x72be5d74, 41, 3, 0x3_72be5d74);
    CubeRoot(0x80deb1fe, 43, 3, 0x3_80deb1fe);
    CubeRoot(0x9bdc06a7, 47, 3, 0x3_9bdc06a7);
    CubeRoot(0xc19bf174, 53, 3, 0x3_c19bf174);
  }

  lemma CubeRow2()
    ensures CubeRow(K_2, P_2)
  {
    CubeRoot(0xe49b69c1, 59, 3, 0x3_e49b69c1);
    CubeRoot(0xefbe4786, 61, 3, 0x3_efbe4786);
    CubeRoot(0x0fc19dc6, 67, 4, 0x4_0fc19dc6);
    CubeRoot(0x240ca1cc, 71, 4, 0x4_240ca1cc);
    CubeRoot(0x2de92c6f, 73, 4, 0x4_2de92c6f);
    CubeRoot(0x4a7484aa, 79, 4, 0x4_4a7484aa);
    CubeRoot(0x5cb0a9dc, 83, 4, 0x4_5cb0a9dc);
    CubeRoot(0x76f988da, 89, 4, 0x4_76f988da);
  }

  lemma CubeRow3()
    ensures CubeRow(K_3, P_3)
  {
    CubeRoot(0x983e5152, 97, 4, 0x4_983e5152);
    CubeRoot(0xa831c66d, 101, 4, 0x4_a831c66d);
    CubeRoot(0xb00327c8, 103, 4, 0x4_b00327c8);
    CubeRoot(0xbf597fc7, 107, 4, 0x4_bf597fc7);
    CubeRoot(0xc6e00bf3, 109, 4, 0x4_c6e00bf3);
    CubeRoot(0xd5a79147, 113, 4, 0x4_d5a79147);
    CubeRoot(0x06ca6351, 127, 5, 0x5_06ca6351);
    CubeRoot(0x14292967, 131, 5, 0x5_14292967);
  }

  lemma CubeRow4()
    ensures CubeRow(K_4, P_4)
  {
    CubeRoot(0x27b70a85, 137, 5, 0x5_27b70a85);
    CubeRoot(0x2e1b2138, 139, 5, 0x5_2e1b2138);
    CubeRoot(0x4d2c6dfc, 149, 5, 0x5_4d2c6dfc);
    CubeRoot(0x53380d13, 151, 5, 0x5_53380d13);
    CubeRoot(0x650a7354, 157, 5, 0x5_650a7354);
    CubeRoot(0x766a0abb, 163, 5, 0x5_766a0abb);
    CubeRoot(0x81c2c92e, 167, 5, 0x5_81c2c92e);
    CubeRoot(0x92722c85, 173, 5, 0x5_92722c85);
  }

  lemma CubeRow5()
    ensures CubeRow(K_5, P_5)
  {
    CubeRoot(0xa2bfe8a1, 179, 5, 0x5_a2bfe8a1);
    CubeRoot(0xa81a664b, 181, 5, 0x5_a81a664b);
    CubeRoot(0xc24b8b70, 191, 5, 0x5_c24b8b70);
    CubeRoot(0xc76c51a3, 193, 5, 0x5_c76c51a3);
    CubeRoot(0xd192e819, 197, 5, 0x5_d192e819);
    CubeRoot(0xd6990624, 199, 5, 0x5_d6990624);
    CubeRoot(0xf40e3585, 211, 5, 0x5_f40e3585);
    CubeRoot(0x106aa070, 223, 6, 0x6_106aa070);
  }

  lemma CubeRow6()
    ensures CubeRow(K_6, P_6)
  {
    CubeRoot(0x19a4c116, 227, 6, 0x6_19a4c116);
    CubeRoot(0x1e376c08, 229, 6, 0x6_1e376c08);
    CubeRoot(0x2748774c, 233, 6, 0x6_2748774c);
    CubeRoot(0x34b0bcb5, 239, 6, 0x6_34b0bcb5);
    CubeRoot(0x391c0cb3, 241, 6, 0x6_391c0cb3);
    CubeRoot(0x4ed8aa4a, 251, 6, 0x6_4ed8aa4a);
    CubeRoot(0x5b9cca4f, 257, 6, 0x6_5b9cca4f);
    CubeRoot(0x682e6ff3, 263, 6, 0x6_682e6ff3);
  }

  lemma CubeRow7()
    ensures CubeRow(K_7, P_7)
  {
    CubeRoot(0x748f82ee, 269, 6, 0x6_748f82ee);
    CubeRoot(0x78a5636f, 271, 6, 0x6_78a5636f);
    CubeRoot(0x84c87814, 277, 6, 0x6_84c87814);
    CubeRoot(0x8cc70208, 281, 6, 0x6_8cc70208);
    CubeRoot(0x90befffa, 283, 6, 0x6_90befffa);
    CubeRoot(0xa4506ceb, 293, 6, 0x6_a4506ceb);
    CubeRoot(0xbef9a3f7, 307, 6, 0x6_bef9a3f7);
    CubeRoot(0xc67178f2, 311, 6, 0x6_c67178f2);
  }

  lemma SquareRoot(k: word, p: nat, w: nat, r: nat)
    requires r == w * TWO_32 + k as nat && IsSquareRoot(r, p * TWO_64)
    ensures IsSquareFraction(k as nat, p)
  {
    assert SquareFraction(k as nat, p, w);
  }

  // ----------------------------------------------------------- main results

  /** The table of primes has the first sixty-four, in order. */
  lemma PrimesInOrder()
    ensures |PRIMES| == 64 && PRIMES[0] == 2 && Prime(2)
    ensures forall i :: 0 <= i < 63 ==> NextPrime(PRIMES[i], PRIMES[i + 1])
  {
    PrimeRow0();
    PrimeRow1();
    PrimeRow2();
    PrimeRow3();
    PrimeRow4();
    PrimeRow5();
    PrimeRow6();
    PrimeRow7();
    forall i | 0 <= i < 63 ensures NextPrime(PRIMES[i], PRIMES[i + 1]) {
    }
  }

  lemma NextRow(ks: seq<word>, ps: seq<nat>, k: seq<word>, p: seq<nat>)
    requires |ks| == |ps| && (forall i :: 0 <= i < |ks| ==> IsCubeFraction(ks[i] as nat, ps[i])) && CubeRow(k, p)
    ensures |ks + k| == |ps + p| == |ks| + 8 && forall i :: 0 <= i < |ks + k| ==> IsCubeFraction((ks + k)[i] as nat, (ps + p)[i])
  {
    forall i | |ks| <= i < |ks + k| ensures IsCubeFraction((ks + k)[i] as nat, (ps + p)[i]) {
      assert (ks + k)[i] == k[i - |ks|] && (ps + p)[i] == p[i - |ks|];
    }
  }

  lemma AllRows(a: seq<word>, b: seq<word>, c: seq<word>, d: seq<word>, e: seq<word>, f: seq<word>, g: seq<word>, h: seq<word>,
                p: seq<nat>, q: seq<nat>, r: seq<nat>, s: seq<nat>, t: seq<nat>, u: seq<nat>, v: seq<nat>, w: seq<nat>)
    requires CubeRow(a, p) && CubeRow(b, q) && CubeRow(c, r) && CubeRow(d, s)
    requires CubeRow(e, t) && CubeRow(f, u) && CubeRow(g, v) && CubeRow(h, w)
    ensures var ks, ps := a + b + c + d + e + f + g + h, p + q + r + s + t + u + v + w;
            |ks| == |ps| == 64 && forall i :: 0 <= i < 64 ==> IsCubeFraction(ks[i] as nat, ps[i])
  {
    NextRow(a, p, b, q);
    NextRow(a + b, p + q, c, r);
    NextRow(a + b + c, p + q + r, d, s);
    NextRow(a + b + c + d, p + q + r + s, e, t);
    NextRow(a + b + c + d + e, p + q + r + s + t, f, u);
    NextRow(a + b + c + d + e + f, p + q + r + s + t + u, g, v);
    NextRow(a + b + c + d + e + f + g, p + q + r + s + t + u + v, h, w);
  }

  /** Each round constant is the fraction of the cube root of its prime. */
  lemma RoundConstants()
    ensures |K| == |PRIMES| == 64 && forall i :: 0 <= i < 64 ==> IsCubeFraction(K[i] as nat, PRIMES[i])
  {
    CubeRow0();
    CubeRow1();
    CubeRow2();
    CubeRow3();
    CubeRow4();
    CubeRow5();
    CubeRow6();
    CubeRow7();
    AllRows(K_0, K_1, K_2, K_3, K_4, K_5, K_6, K_7, P_0, P_1, P_2, P_3, P_4, P_5, P_6, P_7);
  }

  /** Each word of the initial hash value is the fraction of the square root of its prime. */
  lemma InitialHash()
    ensures forall i :: 0 <= i < 8 ==> IsSquareFraction(H0[i] as nat, PRIMES[i])
  {
    SquareRoot(0x6a09e667, 2, 1, 0x1_6a09e667);
    SquareRoot(0xbb67ae85, 3, 1, 0x1_bb67ae85);
    SquareRoot(0x3c6ef372, 5, 2, 0x2_3c6ef372);
    SquareRoot(0xa54ff53a, 7, 2, 0x2_a54ff53a);
    SquareRoot(0x510e527f, 11, 3, 0x3_510e527f);
    SquareRoot(0x9b05688c, 13, 3, 0x3_9b05688c);
    SquareRoot(0x1f83d9ab, 17, 4, 0x4_1f83d9ab);
    SquareRoot(0x5be0cd19, 19, 4, 0x4_5be0cd19);
  }

  lemma CubeGrows(q: nat, r: nat)
    requires q <= r
    ensures q * q * q <= r * r * r
  {
    assert q * q <= q * r <= r * r;
    assert q * q * q <= r * r * q <= r * r * r;
  }

  lemma CubesApart(q: nat, r: nat, x: nat)
    requires IsCubeRoot(q, x) && IsCubeRoot(r, x)
    ensures q == r
  {
    if q < r {
      CubeGrows(q + 1, r);
    } else if r < q {
      CubeGrows(r + 1, q);
    }
  }

  /** No other number of thirty-two bits is the fraction of that root, so the law leaves no choice of a constant. */
  lemma FractionUnique(k: nat, l: nat, p: nat)
    requires k < TWO_32 && l < TWO_32 && IsCubeFraction(k, p) && IsCubeFraction(l, p)
    ensures k == l
  {
    var v: nat :| CubeFraction(k, p, v);
    var w: nat :| CubeFraction(l, p, w);
    CubesApart(v * TWO_32 + k, w * TWO_32 + l, p * TWO_96);
  }
}
