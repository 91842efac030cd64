/** The list of primes from which FIPS 180-4 draws its constants is the list of the first ones. */
module Primes {
  import opened Fips180
  import opened Words

  ghost predicate IsPrime(n: nat) {
    n >= 2 && forall d :: 2 <= d < n ==> n % d != 0
  }

  /** p divides n properly. */
  predicate Splits(n: nat, p: nat)
    requires p > 0
  {
    n % p == 0 && n != p
  }

  /** No proper divisor among the primes up to 17. */
  predicate NoSmallFactor(n: nat) {
    n >= 2 && !Splits(n, 2) && !Splits(n, 3) && !Splits(n, 5) && !Splits(n, 7)
    && !Splits(n, 11) && !Splits(n, 13) && !Splits(n, 17)
  }

  /** One of two factors of a number below 324 is at most 17. */
  lemma SmallFactor(d: nat, q: nat)
    requires d >= 2 && q >= 2 && d * q < 324
    ensures d <= 17 || q <= 17
  {
    if d >= 18 && q >= 18 {
      MultiplyMonotone(18, d, 18, q);
    }
  }

  lemma Multiples(n: nat, d: nat)
    requires 2 <= d < n && n % d == 0
    ensures n == d * (n / d) && 2 <= n / d < n && n % (n / d) == 0
  {
    var q := n / d;
    assert n == d * q;
    assert q <= 1 ==> d * q <= d;
    assert d * q >= 2 * q;
    DivisionIsUnique(n, q, d, 0);
  }

  lemma FactorOfFactor(n: nat, p: nat, e: nat)
    requires 2 <= p && 2 <= e < n && e % p == 0 && n % e == 0
    ensures n % p == 0
  {
    var k, m := e / p, n / e;
    assert e == p * k && n == e * m;
    assert n == p * (k * m);
    DivisionIsUnique(n, p, k * m, 0);
  }

  /** A divisor of at most 17 leads to a prime one. */
  lemma PrimeFactor(n: nat, e: nat)
    requires 2 <= e <= 17 && e < n && n % e == 0
    ensures !NoSmallFactor(n)
  {
    if e % 2 == 0 {
      FactorOfFactor(n, 2, e);
      assert Splits(n, 2);
    } else if e % 3 == 0 {
      FactorOfFactor(n, 3, e);
      assert Splits(n, 3);
    } else {
      assert e in {5, 7, 11, 13, 17} && Splits(n, e);
    }
  }

  lemma NoneSplits(n: nat)
    requires IsPrime(n)
    ensures NoSmallFactor(n)
  {
    forall p | p in {2, 3, 5, 7, 11, 13, 17}
      ensures !Splits(n, p)
    {
      if p < n {
        assert n % p != 0;
      }
    }
  }

  /** Below 324 a number is prime exactly when it has no proper divisor among the primes up to 17. */
  lemma PrimeExactly(n: nat)
    requires n < 324
    ensures IsPrime(n) <==> NoSmallFactor(n)
  {
    if d :| 2 <= d < n && n % d == 0 {
      Multiples(n, d);
      SmallFactor(d, n / d);
      PrimeFactor(n, if d <= 17 then d else n / d);
    } else if n >= 2 {
      NoneSplits(n);
    }
  }

  // ---------------------------------------------------------------- the list

  /** Every number strictly between p and q has a small factor. */
  predicate NoneBetween(p: nat, q: nat)
    decreases q - p
  {
    p + 1 >= q || (!NoSmallFactor(p + 1) && NoneBetween(p + 1, q))
  }

  lemma {:induction false} Gap(p: nat, q: nat, n: nat)
    requires NoneBetween(p, q) && p < n < q
    ensures !NoSmallFactor(n)
    decreases q - p
  {
    if p + 1 < n {
      Gap(p + 1, q, n);
    }
  }

  /** q is the next number after p without small factor. */
  lemma Next(p: nat, q: nat, n: nat)
    requires NoneBetween(p, q) && NoSmallFactor(q) && p < n <= q
    ensures NoSmallFactor(n) <==> n == q
  {
    if n < q {
      Gap(p, q, n);
    }
  }

  lemma Octet0(n: nat)
    requires 1 < n <= 19
    ensures NoSmallFactor(n) <==> n in PRIMES0
  {
    if n <= 2 {
      Next(1, 2, n);
    } else if n <= 3 {
      Next(2, 3, n);
    } else if n <= 5 {
      Next(3, 5, n);
    } else if n <= 7 {
      Next(5, 7, n);
    } else if n <= 11 {
      Next(7, 11, n);
    } else if n <= 13 {
      Next(11, 13, n);
    } else if n <= 17 {
      Next(13, 17, n);
    } else {
      Next(17, 19, n);
    }
  }

  lemma Octet1(n: nat)
    requires 19 < n <= 53
    ensures NoSmallFactor(n) <==> n in PRIMES1
  {
    if n <= 23 {
      Next(19, 23, n);
    } else if n <= 29 {
      Next(23, 29, n);
    } else if n <= 31 {
      Next(29, 31, n);
    } else if n <= 37 {
      Next(31, 37, n);
    } else if n <= 41 {
      Next(37, 41, n);
    } else if n <= 43 {
      Next(41, 43, n);
    } else if n <= 47 {
      Next(43, 47, n);
    } else {
      Next(47, 53, n);
    }
  }

  lemma Octet2(n: nat)
    requires 53 < n <= 89
    ensures NoSmallFactor(n) <==> n in PRIMES2
  {
    if n <= 59 {
      Next(53, 59, n);
    } else if n <= 61 {
      Next(59, 61, n);
    } else if n <= 67 {
      Next(61, 67, n);
    } else if n <= 71 {
      Next(67, 71, n);
    } else if n <= 73 {
      Next(71, 73, n);
    } else if n <= 79 {
      Next(73, 79, n);
    } else if n <= 83 {
      Next(79, 83, n);
    } else {
      Next(83, 89, n);
    }
  }

  lemma Octet3(n: nat)
    requires 89 < n <= 131
    ensures NoSmallFactor(n) <==> n in PRIMES3
  {
    if n <= 97 {
      Next(89, 97, n);
    } else if n <= 101 {
      Next(97, 101, n);
    } else if n <= 103 {
      Next(101, 103, n);
    } else if n <= 107 {
      Next(103, 107, n);
    } else if n <= 109 {
      Next(107, 109, n);
    } else if n <= 113 {
      Next(109, 113, n);
    } else if n <= 127 {
      Next(113, 127, n);
    } else {
      Next(127, 131, n);
    }
  }

  lemma Octet4(n: nat)
    requires 131 < n <= 173
    ensures NoSmallFactor(n) <==> n in PRIMES4
  {
    if n <= 137 {
      Next(131, 137, n);
    } else if n <= 139 {
      Next(137, 139, n);
    } else if n <= 149 {
      Next(139, 149, n);
    } else if n <= 151 {
      Next(149, 151, n);
    } else if n <= 157 {
      Next(151, 157, n);
    } else if n <= 163 {
      Next(157, 163, n);
    } else if n <= 167 {
      Next(163, 167, n);
    } else {
      Next(167, 173, n);
    }
  }

  lemma Octet5(n: nat)
    requires 173 < n <= 223
    ensures NoSmallFactor(n) <==> n in PRIMES5
  {
    if n <= 179 {
      Next(173, 179, n);
    } else if n <= 181 {
      Next(179, 181, n);
    } else if n <= 191 {
      Next(181, 191, n);
    } else if n <= 193 {
      Next(191, 193, n);
    } else if n <= 197 {
      Next(193, 197, n);
    } else if n <= 199 {
      Next(197, 199, n);
    } else if n <= 211 {
      Next(199, 211, n);
    } else {
      Next(211, 223, n);
    }
  }

  lemma Octet6(n: nat)
    requires 223 < n <= 263
    ensures NoSmallFactor(n) <==> n in PRIMES6
  {
    if n <= 227 {
      Next(223, 227, n);
    } else if n <= 229 {
      Next(227, 229, n);
    } else if n <= 233 {
      Next(229, 233, n);
    } else if n <= 239 {
      Next(233, 239, n);
    } else if n <= 241 {
      Next(239, 241, n);
    } else if n <= 251 {
      Next(241, 251, n);
    } else if n <= 257 {
      Next(251, 257, n);
    } else {
      Next(257, 263, n);
    }
  }

  lemma Octet7(n: nat)
    requires 263 < n <= 311
    ensures NoSmallFactor(n) <==> n in PRIMES7
  {
    if n <= 269 {
      Next(263, 269, n);
    } else if n <= 271 {
      Next(269, 271, n);
    } else if n <= 277 {
      Next(271, 277, n);
    } else if n <= 281 {
      Next(277, 281, n);
    } else if n <= 283 {
      Next(281, 283, n);
    } else if n <= 293 {
      Next(283, 293, n);
    } else if n <= 307 {
      Next(293, 307, n);
    } else {
      Next(307, 311, n);
    }
  }

  lemma OctetsAscend()
    ensures forall n :: n in PRIMES0 ==> 1 < n <= 19
    ensures forall n :: n in PRIMES1 ==> 19 < n <= 53
    ensures forall n :: n in PRIMES2 ==> 53 < n <= 89
    ensures forall n :: n in PRIMES3 ==> 89 < n <= 131
    ensures forall n :: n in PRIMES4 ==> 131 < n <= 173
    ensures forall n :: n in PRIMES5 ==> 173 < n <= 223
    ensures forall n :: n in PRIMES6 ==> 223 < n <= 263
    ensures forall n :: n in PRIMES7 ==> 263 < n <= 311
    ensures forall n :: n in PRIMES <==> n in PRIMES0 || n in PRIMES1 || n in PRIMES2 || n in PRIMES3
                                         || n in PRIMES4 || n in PRIMES5 || n in PRIMES6 || n in PRIMES7
  {
  }

  lemma ListExactly(n: nat)
    requires n <= 311
    ensures n in PRIMES <==> NoSmallFactor(n)
  {
    OctetsAscend();
    if n <= 1 {
    } else if n <= 19 {
      Octet0(n);
    } else if n <= 53 {
      Octet1(n);
    } else if n <= 89 {
      Octet2(n);
    } else if n <= 131 {
      Octet3(n);
    } else if n <= 173 {
      Octet4(n);
    } else if n <= 223 {
      Octet5(n);
    } else if n <= 263 {
      Octet6(n);
    } else {
      Octet7(n);
    }
  }

  ghost predicate Ascending(s: seq<nat>) {
    forall i, j :: 0 <= i < j < |s| ==> s[i] < s[j]
  }

  lemma AppendAscending(a: seq<nat>, b: seq<nat>, m: nat)
    requires Ascending(a) && Ascending(b) && (forall x :: x in a ==> x <= m) && forall x :: x in b ==> m < x
    ensures Ascending(a + b)
  {
    forall i, j | 0 <= i < j < |a + b|
      ensures (a + b)[i] < (a + b)[j]
    {
      if i < |a| <= j {
        assert a[i] in a && b[j - |a|] in b;
      }
    }
  }

  predicate Within(s: seq<nat>, lo: nat, hi: nat) {
    forall x :: x in s ==> lo < x <= hi
  }

  lemma JoinFour(a: seq<nat>, b: seq<nat>, c: seq<nat>, d: seq<nat>, k: nat, l: nat, m: nat, n: nat, o: nat)
    requires Ascending(a) && Ascending(b) && Ascending(c) && Ascending(d)
    requires k <= l <= m <= n <= o && Within(a, k, l) && Within(b, l, m) && Within(c, m, n) && Within(d, n, o)
    ensures Ascending(a + b + c + d) && Within(a + b + c + d, k, o)
  {
    AppendAscending(a, b, l);
    AppendAscending(a + b, c, m);
    AppendAscending(a + b + c, d, n);
  }

  lemma OctetAscends()
    ensures Ascending(PRIMES0) && Ascending(PRIMES1) && Ascending(PRIMES2) && Ascending(PRIMES3)
    ensures Ascending(PRIMES4) && Ascending(PRIMES5) && Ascending(PRIMES6) && Ascending(PRIMES7)
  {
  }

  lemma ListAscends()
    ensures Ascending(PRIMES)
  {
    OctetsAscend();
    OctetAscends();
    hide Ascending;
    JoinFour(PRIMES0, PRIMES1, PRIMES2, PRIMES3, 1, 19, 53, 89, 131);
    JoinFour(PRIMES4, PRIMES5, PRIMES6, PRIMES7, 131, 173, 223, 263, 311);
    var first, second := PRIMES0 + PRIMES1 + PRIMES2 + PRIMES3, PRIMES4 + PRIMES5 + PRIMES6 + PRIMES7;
    AppendAscending(first, second, 131);
    assert first + second == PRIMES;
  }

  /** The list is the first sixty-four primes: it ascends, and holds exactly the primes up to its last. */
  lemma ListIsFirstPrimes(n: nat)
    ensures |PRIMES| == 64 && PRIMES[63] == 311 && Ascending(PRIMES)
    ensures n in PRIMES <==> n <= 311 && IsPrime(n)
  {
    ListAscends();
    OctetsAscend();
    if n <= 311 {
      ListExactly(n);
      PrimeExactly(n);
    }
  }
}
