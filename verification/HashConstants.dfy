/** The constants of SHA-256, as sections 4.2.2 and 5.3.3 of FIPS 180-4 define them. */
module HashConstants {
  import opened MessageBlocks
  import opened HashWords
  import opened SecureHash
  import opened HashExample

  // ---------------------------------------------------------------- primes

  predicate Product(n: nat, d: nat, e: nat) { 2 <= d && 2 <= e && n == d * e }

  predicate Composite(n: nat) { exists d, e | 2 <= d < n && 2 <= e < n :: Product(n, d, e) }

  predicate Prime(n: nat) { n >= 2 && !Composite(n) }

  /** No prime up to 17 divides `n`, other than itself. */
  predicate Sieved(n: nat) {
    && (n % 2 != 0 || n == 2) && (n % 3 != 0 || n == 3) && (n % 5 != 0 || n == 5) && (n % 7 != 0 || n == 7)
    && (n % 11 != 0 || n == 11) && (n % 13 != 0 || n == 13) && (n % 17 != 0 || n == 17)
  }

  predicate SmallPrime(p: nat) { p == 2 || p == 3 || p == 5 || p == 7 || p == 11 || p == 13 || p == 17 }

  lemma Mod2(m: nat)
    ensures 2 * m % 2 == 0
  {
  }

  lemma Mod3(m: nat)
    ensures 3 * m % 3 == 0
  {
  }

  lemma Mod5(m: nat)
    ensures 5 * m % 5 == 0
  {
  }

  lemma Mod7(m: nat)
    ensures 7 * m % 7 == 0
  {
  }

  lemma Mod11(m: nat)
    ensures 11 * m % 11 == 0
  {
  }

  lemma Mod13(m: nat)
    ensures 13 * m % 13 == 0
  {
  }

  lemma Mod17(m: nat)
    ensures 17 * m % 17 == 0
  {
  }

  lemma SmallMultiple(p: nat, m: nat)
    requires SmallPrime(p)
    ensures p * m % p == 0
  {
    if p == 2 {
      Mod2(m);
    } else if p == 3 {
      Mod3(m);
    } else if p == 5 {
      Mod5(m);
    } else if p == 7 {
      Mod7(m);
    } else if p == 11 {
      Mod11(m);
    } else if p == 13 {
      Mod13(m);
    } else {
      Mod17(m);
    }
  }

  lemma NotSieved(n: nat, p: nat)
    requires SmallPrime(p) && n % p == 0 && n != p
    ensures !Sieved(n)
  {
  }

  lemma SmallestFactor(d: nat) returns (p: nat, c: nat)
    requires 2 <= d <= 18
    ensures SmallPrime(p) && d == p * c && c >= 1
  {
    p := if d % 2 == 0 then 2 else if d % 3 == 0 then 3 else if d % 5 == 0 then 5 else d;
    c := d / p;
  }

  lemma SmallFactor(n: nat, d: nat, e: nat)
    requires Product(n, d, e) && d <= 18
    ensures !Sieved(n)
  {
    var p, c := SmallestFactor(d);
    assert n == p * (c * e) && c * e >= e;
    SmallMultiple(p, c * e);
    assert n > p by { assert p * (c * e) >= p * 2; }
    NotSieved(n, p);
  }

  lemma MultipleIsComposite(n: nat, p: nat)
    requires p >= 2 && n > p && n % p == 0
    ensures Composite(n)
  {
    var e := n / p;
    assert n == p * e;
    assert e >= 2;
    assert Product(n, p, e);
  }

  /** Below 19 squared the sieve decides. */
  lemma PrimeIffSieved(n: nat)
    requires 2 <= n < 361
    ensures Prime(n) <==> Sieved(n)
  {
    if Composite(n) {
      var d, e :| 2 <= d < n && 2 <= e < n && Product(n, d, e);
      if d <= 18 { SmallFactor(n, d, e); } else { LargeFactor(n, d, e); }
    } else if !Sieved(n) {
      var p := if n % 2 == 0 then 2 else if n % 3 == 0 then 3 else if n % 5 == 0 then 5 else if n % 7 == 0 then 7
               else if n % 11 == 0 then 11 else if n % 13 == 0 then 13 else 17;
      MultipleIsComposite(n, p);
    }
  }

  lemma LargeFactor(n: nat, d: nat, e: nat)
    requires Product(n, d, e) && d >= 19 && n < 361
    ensures !Sieved(n)
  {
    assert e <= 18 by { assert 19 * e <= d * e; }
    SmallFactor(n, e, d);
  }


  lemma Sieved0(n: nat)
    requires 2 <= n <= 7
    ensures Sieved(n) <==> n in [2, 3, 5, 7]
  {
  }

  lemma Sieved4(n: nat)
    requires 8 <= n <= 19
    ensures Sieved(n) <==> n in [11, 13, 17, 19]
  {
  }

  lemma Sieved8(n: nat)
    requires 20 <= n <= 37
    ensures Sieved(n) <==> n in [23, 29, 31, 37]
  {
  }

  lemma Sieved12(n: nat)
    requires 38 <= n <= 53
    ensures Sieved(n) <==> n in [41, 43, 47, 53]
  {
  }

  lemma Sieved16(n: nat)
    requires 54 <= n <= 71
    ensures Sieved(n) <==> n in [59, 61, 67, 71]
  {
  }

  lemma Sieved20(n: nat)
    requires 72 <= n <= 89
    ensures Sieved(n) <==> n in [73, 79, 83, 89]
  {
  }

  lemma Sieved24(n: nat)
    requires 90 <= n <= 107
    ensures Sieved(n) <==> n in [97, 101, 103, 107]
  {
  }

  lemma Sieved28(n: nat)
    requires 108 <= n <= 131
    ensures Sieved(n) <==> n in [109, 113, 127, 131]
  {
  }

  lemma Sieved32(n: nat)
    requires 132 <= n <= 151
    ensures Sieved(n) <==> n in [137, 139, 149, 151]
  {
  }

  lemma Sieved36(n: nat)
    requires 152 <= n <= 173
    ensures Sieved(n) <==> n in [157, 163, 167, 173]
  {
  }

  lemma Sieved40(n: nat)
    requires 174 <= n <= 193
    ensures Sieved(n) <==> n in [179, 181, 191, 193]
  {
  }

  lemma Sieved44(n: nat)
    requires 194 <= n <= 223
    ensures Sieved(n) <==> n in [197, 199, 211, 223]
  {
  }

  lemma Sieved48(n: nat)
    requires 224 <= n <= 239
    ensures Sieved(n) <==> n in [227, 229, 233, 239]
  {
  }

  lemma Sieved52(n: nat)
    requires 240 <= n <= 263
    ensures Sieved(n) <==> n in [241, 251, 257, 263]
  {
  }

  lemma Sieved56(n: nat)
    requires 264 <= n <= 281
    ensures Sieved(n) <==> n in [269, 271, 277, 281]
  {
  }

  lemma Sieved60(n: nat)
    requires 282 <= n <= 311
    ensures Sieved(n) <==> n in [283, 293, 307, 311]
  {
  }

  /** Primes 0 to 7, counted from zero. */
  lemma Primes0(n: nat)
    requires 2 <= n <= 19
    ensures Prime(n) <==> n in [2, 3, 5, 7, 11, 13, 17, 19]
  {
    PrimeIffSieved(n);
    if n <= 7 { Sieved0(n); } else { Sieved4(n); }
  }

  /** Primes 8 to 15, counted from zero. */
  lemma Primes8(n: nat)
    requires 20 <= n <= 53
    ensures Prime(n) <==> n in [23, 29, 31, 37, 41, 43, 47, 53]
  {
    PrimeIffSieved(n);
    if n <= 37 { Sieved8(n); } else { Sieved12(n); }
  }

  /** Primes 16 to 23, counted from zero. */
  lemma Primes16(n: nat)
    requires 54 <= n <= 89
    ensures Prime(n) <==> n in [59, 61, 67, 71, 73, 79, 83, 89]
  {
    PrimeIffSieved(n);
    if n <= 71 { Sieved16(n); } else { Sieved20(n); }
  }

  /** Primes 24 to 31, counted from zero. */
  lemma Primes24(n: nat)
    requires 90 <= n <= 131
    ensures Prime(n) <==> n in [97, 101, 103, 107, 109, 113, 127, 131]
  {
    PrimeIffSieved(n);
    if n <= 107 { Sieved24(n); } else { Sieved28(n); }
  }

  /** Primes 32 to 39, counted from zero. */
  lemma Primes32(n: nat)
    requires 132 <= n <= 173
    ensures Prime(n) <==> n in [137, 139, 149, 151, 157, 163, 167, 173]
  {
    PrimeIffSieved(n);
    if n <= 151 { Sieved32(n); } else { Sieved36(n); }
  }

  /** Primes 40 to 47, counted from zero. */
  lemma Primes40(n: nat)
    requires 174 <= n <= 223
    ensures Prime(n) <==> n in [179, 181, 191, 193, 197, 199, 211, 223]
  {
    PrimeIffSieved(n);
    if n <= 193 { Sieved40(n); } else { Sieved44(n); }
  }

  /** Primes 48 to 55, counted from zero. */
  lemma Primes48(n: nat)
    requires 224 <= n <= 263
    ensures Prime(n) <==> n in [227, 229, 233, 239, 241, 251, 257, 263]
  {
    PrimeIffSieved(n);
    if n <= 239 { Sieved48(n); } else { Sieved52(n); }
  }

  /** Primes 56 to 63, counted from zero. */
  lemma Primes56(n: nat)
    requires 264 <= n <= 311
    ensures Prime(n) <==> n in [269, 271, 277, 281, 283, 293, 307, 311]
  {
    PrimeIffSieved(n);
    if n <= 281 { Sieved56(n); } else { Sieved60(n); }
  }

  // ---------------------------------------------------------------- roots

  /** `k` is the first 32 bits of the fraction of the cube root of `p`, whose whole part is `n`. */
  predicate CubeRoot(p: nat, n: nat, k: Word) {
    var x := n * 0x1_0000_0000 + k as int;
    x * x * x <= p * 0x1_0000_0000_0000_0000_0000_0000 < (x + 1) * (x + 1) * (x + 1)
  }

  predicate SquareRoot(p: nat, n: nat, h: Word) {
    var x := n * 0x1_0000_0000 + h as int;
    x * x <= p * 0x1_0000_0000_0000_0000 < (x + 1) * (x + 1)
  }

  lemma CubeRoots0()
    ensures CubeRoot(2, 1, K[0]) && CubeRoot(3, 1, K[1]) && CubeRoot(5, 1, K[2]) && CubeRoot(7, 1, K[3])
  {
    Constants0();
  }

  lemma CubeRoots4()
    ensures CubeRoot(11, 2, K[4]) && CubeRoot(13, 2, K[5]) && CubeRoot(17, 2, K[6]) && CubeRoot(19, 2, K[7])
  {
    Constants0();
  }

  lemma CubeRoots8()
    ensures CubeRoot(23, 2, K[8]) && CubeRoot(29, 3, K[9]) && CubeRoot(31, 3, K[10]) && CubeRoot(37, 3, K[11])
  {
    Constants1();
  }

  lemma CubeRoots12()
    ensures CubeRoot(41, 3, K[12]) && CubeRoot(43, 3, K[13]) && CubeRoot(47, 3, K[14]) && CubeRoot(53, 3, K[15])
  {
    Constants1();
  }

  lemma CubeRoots16()
    ensures CubeRoot(59, 3, K[16]) && CubeRoot(61, 3, K[17]) && CubeRoot(67, 4, K[18]) && CubeRoot(71, 4, K[19])
  {
    Constants2();
  }

  lemma CubeRoots20()
    ensures CubeRoot(73, 4, K[20]) && CubeRoot(79, 4, K[21]) && CubeRoot(83, 4, K[22]) && CubeRoot(89, 4, K[23])
  {
    Constants2();
  }

  lemma CubeRoots24()
    ensures CubeRoot(97, 4, K[24]) && CubeRoot(101, 4, K[25]) && CubeRoot(103, 4, K[26]) && CubeRoot(107, 4, K[27])
  {
    Constants3();
  }

  lemma CubeRoots28()
    ensures CubeRoot(109, 4, K[28]) && CubeRoot(113, 4, K[29]) && CubeRoot(127, 5, K[30]) && CubeRoot(131, 5, K[31])
  {
    Constants3();
  }

  lemma CubeRoots32()
    ensures CubeRoot(137, 5, K[32]) && CubeRoot(139, 5, K[33]) && CubeRoot(149, 5, K[34]) && CubeRoot(151, 5, K[35])
  {
    Constants4();
  }

  lemma CubeRoots36()
    ensures CubeRoot(157, 5, K[36]) && CubeRoot(163, 5, K[37]) && CubeRoot(167, 5, K[38]) && CubeRoot(173, 5, K[39])
  {
    Constants4();
  }

  lemma CubeRoots40()
    ensures CubeRoot(179, 5, K[40]) && CubeRoot(181, 5, K[41]) && CubeRoot(191, 5, K[42]) && CubeRoot(193, 5, K[43])
  {
    Constants5();
  }

  lemma CubeRoots44()
    ensures CubeRoot(197, 5, K[44]) && CubeRoot(199, 5, K[45]) && CubeRoot(211, 5, K[46]) && CubeRoot(223, 6, K[47])
  {
    Constants5();
  }

  lemma CubeRoots48()
    ensures CubeRoot(227, 6, K[48]) && CubeRoot(229, 6, K[49]) && CubeRoot(233, 6, K[50]) && CubeRoot(239, 6, K[51])
  {
    Constants6();
  }

  lemma CubeRoots52()
    ensures CubeRoot(241, 6, K[52]) && CubeRoot(251, 6, K[53]) && CubeRoot(257, 6, K[54]) && CubeRoot(263, 6, K[55])
  {
    Constants6();
  }

  lemma CubeRoots56()
    ensures CubeRoot(269, 6, K[56]) && CubeRoot(271, 6, K[57]) && CubeRoot(277, 6, K[58]) && CubeRoot(281, 6, K[59])
  {
    Constants7();
  }

  lemma CubeRoots60()
    ensures CubeRoot(283, 6, K[60]) && CubeRoot(293, 6, K[61]) && CubeRoot(307, 6, K[62]) && CubeRoot(311, 6, K[63])
  {
    Constants7();
  }

  /** The initial hash value: square roots of the first eight primes. */
  lemma SquareRoots()
    ensures SquareRoot(2, 1, H0.a) && SquareRoot(3, 1, H0.b) && SquareRoot(5, 2, H0.c) && SquareRoot(7, 2, H0.d)
    ensures SquareRoot(11, 3, H0.e) && SquareRoot(13, 3, H0.f) && SquareRoot(17, 4, H0.g) && SquareRoot(19, 4, H0.h)
  {
  }
}
