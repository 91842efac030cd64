/** The two constant tables of the hashing node are the ones FIPS 180-4 describes. */
module Sha256Constants {
  import opened Words
  import opened Fips180

  const K0: seq<Word> := [0x428a2f98, 0x71374491, 0xb5c0fbcf, 0xe9b5dba5,
                         0x3956c25b, 0x59f111f1, 0x923f82a4, 0xab1c5ed5]
  const K1: seq<Word> := [0xd807aa98, 0x12835b01, 0x243185be, 0x550c7dc3,
                         0x72be5d74, 0x80deb1fe, 0x9bdc06a7, 0xc19bf174]
  const K2: seq<Word> := [0xe49b69c1, 0xefbe4786, 0x0fc19dc6, 0x240ca1cc,
                         0x2de92c6f, 0x4a7484aa, 0x5cb0a9dc, 0x76f988da]
  const K3: seq<Word> := [0x983e5152, 0xa831c66d, 0xb00327c8, 0xbf597fc7,
                         0xc6e00bf3, 0xd5a79147, 0x06ca6351, 0x14292967]
  const K4: seq<Word> := [0x27b70a85, 0x2e1b2138, 0x4d2c6dfc, 0x53380d13,
                         0x650a7354, 0x766a0abb, 0x81c2c92e, 0x92722c85]
  const K5: seq<Word> := [0xa2bfe8a1, 0xa81a664b, 0xc24b8b70, 0xc76c51a3,
                         0xd192e819, 0xd6990624, 0xf40e3585, 0x106aa070]
  const K6: seq<Word> := [0x19a4c116, 0x1e376c08, 0x2748774c, 0x34b0bcb5,
                         0x391c0cb3, 0x4ed8aa4a, 0x5b9cca4f, 0x682e6ff3]
  const K7: seq<Word> := [0x748f82ee, 0x78a5636f, 0x84c87814, 0x8cc70208,
                         0x90befffa, 0xa4506ceb, 0xbef9a3f7, 0xc67178f2]

  const K: seq<Word> := K0 + K1 + K2 + K3 + K4 + K5 + K6 + K7

  const INITIAL: seq<Word> := [
    0x6a09e667, 0xbb67ae85, 0x3c6ef372, 0xa54ff53a,
    0x510e527f, 0x9b05688c, 0x1f83d9ab, 0x5be0cd19]

  lemma CubeRoots0()
    ensures CubeRoots(K0, PRIMES0)
  {
    assert CubeRootWith(0x428a2f98, 2, 1);
    assert CubeRootWith(0x71374491, 3, 1);
    assert CubeRootWith(0xb5c0fbcf, 5, 1);
    assert CubeRootWith(0xe9b5dba5, 7, 1);
    assert CubeRootWith(0x3956c25b, 11, 2);
    assert CubeRootWith(0x59f111f1, 13, 2);
    assert CubeRootWith(0x923f82a4, 17, 2);
    assert CubeRootWith(0xab1c5ed5, 19, 2);
  }

  lemma CubeRoots1()
    ensures CubeRoots(K1, PRIMES1)
  {
    assert CubeRootWith(0xd807aa98, 23, 2);
    assert CubeRootWith(0x12835b01, 29, 3);
    assert CubeRootWith(0x243185be, 31, 3);
    assert CubeRootWith(0x550c7dc3, 37, 3);
    assert CubeRootWith(0x72be5d74, 41, 3);
    assert CubeRootWith(0x80deb1fe, 43, 3);
    assert CubeRootWith(0x9bdc06a7, 47, 3);
    assert CubeRootWith(0xc19bf174, 53, 3);
  }

  lemma CubeRoots2()
    ensures CubeRoots(K2, PRIMES2)
  {
    assert CubeRootWith(0xe49b69c1, 59, 3);
    assert CubeRootWith(0xefbe4786, 61, 3);
    assert CubeRootWith(0x0fc19dc6, 67, 4);
    assert CubeRootWith(0x240ca1cc, 71, 4);
    assert CubeRootWith(0x2de92c6f, 73, 4);
    assert CubeRootWith(0x4a7484aa, 79, 4);
    assert CubeRootWith(0x5cb0a9dc, 83, 4);
    assert CubeRootWith(0x76f988da, 89, 4);
  }

  lemma CubeRoots3()
    ensures CubeRoots(K3, PRIMES3)
  {
    assert CubeRootWith(0x983e5152, 97, 4);
    assert CubeRootWith(0xa831c66d, 101, 4);
    assert CubeRootWith(0xb00327c8, 103, 4);
    assert CubeRootWith(0xbf597fc7, 107, 4);
    assert CubeRootWith(0xc6e00bf3, 109, 4);
    assert CubeRootWith(0xd5a79147, 113, 4);
    assert CubeRootWith(0x06ca6351, 127, 5);
    assert CubeRootWith(0x14292967, 131, 5);
  }

  lemma CubeRoots4()
    ensures CubeRoots(K4, PRIMES4)
  {
    assert CubeRootWith(0x27b70a85, 137, 5);
    assert CubeRootWith(0x2e1b2138, 139, 5);
    assert CubeRootWith(0x4d2c6dfc, 149, 5);
    assert CubeRootWith(0x53380d13, 151, 5);
    assert CubeRootWith(0x650a7354, 157, 5);
    assert CubeRootWith(0x766a0abb, 163, 5);
    assert CubeRootWith(0x81c2c92e, 167, 5);
    assert CubeRootWith(0x92722c85, 173, 5);
  }

  lemma CubeRoots5()
    ensures CubeRoots(K5, PRIMES5)
  {
    assert CubeRootWith(0xa2bfe8a1, 179, 5);
    assert CubeRootWith(0xa81a664b, 181, 5);
    assert CubeRootWith(0xc24b8b70, 191, 5);
    assert CubeRootWith(0xc76c51a3, 193, 5);
    assert CubeRootWith(0xd192e819, 197, 5);
    assert CubeRootWith(0xd6990624, 199, 5);
    assert CubeRootWith(0xf40e3585, 211, 5);
    assert CubeRootWith(0x106aa070, 223, 6);
  }

  lemma CubeRoots6()
    ensures CubeRoots(K6, PRIMES6)
  {
    assert CubeRootWith(0x19a4c116, 227, 6);
    assert CubeRootWith(0x1e376c08, 229, 6);
    assert CubeRootWith(0x2748774c, 233, 6);
    assert CubeRootWith(0x34b0bcb5, 239, 6);
    assert CubeRootWith(0x391c0cb3, 241, 6);
    assert CubeRootWith(0x4ed8aa4a, 251, 6);
    assert CubeRootWith(0x5b9cca4f, 257, 6);
    assert CubeRootWith(0x682e6ff3, 263, 6);
  }

  lemma CubeRoots7()
    ensures CubeRoots(K7, PRIMES7)
  {
    assert CubeRootWith(0x748f82ee, 269, 6);
    assert CubeRootWith(0x78a5636f, 271, 6);
    assert CubeRootWith(0x84c87814, 277, 6);
    assert CubeRootWith(0x8cc70208, 281, 6);
    assert CubeRootWith(0x90befffa, 283, 6);
    assert CubeRootWith(0xa4506ceb, 293, 6);
    assert CubeRootWith(0xbef9a3f7, 307, 6);
    assert CubeRootWith(0xc67178f2, 311, 6);
  }

  lemma CubeRootsAppend(k1: seq<Word>, p1: seq<nat>, k2: seq<Word>, p2: seq<nat>)
    requires CubeRoots(k1, p1) && CubeRoots(k2, p2)
    ensures CubeRoots(k1 + k2, p1 + p2)
  {
    forall t | 0 <= t < |k1 + k2| ensures IsCubeRootFraction((k1 + k2)[t], (p1 + p2)[t]) {
      if t >= |k1| {
        assert (k1 + k2)[t] == k2[t - |k1|] && (p1 + p2)[t] == p2[t - |k1|];
      }
    }
  }

  lemma SquareRoots()
    ensures InitialHash(INITIAL)
  {
    assert SquareRootWith(0x6a09e667, 2, 1);
    assert SquareRootWith(0xbb67ae85, 3, 1);
    assert SquareRootWith(0x3c6ef372, 5, 2);
    assert SquareRootWith(0xa54ff53a, 7, 2);
    assert SquareRootWith(0x510e527f, 11, 3);
    assert SquareRootWith(0x9b05688c, 13, 3);
    assert SquareRootWith(0x1f83d9ab, 17, 4);
    assert SquareRootWith(0x5be0cd19, 19, 4);
  }

  lemma AllCubeRoots()
    ensures CubeRoots(K, PRIMES)
  {
    CubeRoots0(); CubeRoots1(); CubeRoots2(); CubeRoots3();
    CubeRoots4(); CubeRoots5(); CubeRoots6(); CubeRoots7();
    CubeRootsAppend(K0, PRIMES0, K1, PRIMES1);
    CubeRootsAppend(K0 + K1, PRIMES0 + PRIMES1, K2, PRIMES2);
    CubeRootsAppend(K0 + K1 + K2, PRIMES0 + PRIMES1 + PRIMES2, K3, PRIMES3);
    CubeRootsAppend(K0 + K1 + K2 + K3, PRIMES0 + PRIMES1 + PRIMES2 + PRIMES3, K4, PRIMES4);
    CubeRootsAppend(K0 + K1 + K2 + K3 + K4, PRIMES0 + PRIMES1 + PRIMES2 + PRIMES3 + PRIMES4, K5, PRIMES5);
    CubeRootsAppend(K0 + K1 + K2 + K3 + K4 + K5,
                    PRIMES0 + PRIMES1 + PRIMES2 + PRIMES3 + PRIMES4 + PRIMES5, K6, PRIMES6);
    CubeRootsAppend(K0 + K1 + K2 + K3 + K4 + K5 + K6,
                    PRIMES0 + PRIMES1 + PRIMES2 + PRIMES3 + PRIMES4 + PRIMES5 + PRIMES6, K7, PRIMES7);
  }

  /** Every round constant is the first 32 bits of the fractional part of the cube root of
      its prime, and every initial hash word that of the square root. */
  lemma ConstantsAreRoots()
    ensures RoundConstants(K) && InitialHash(INITIAL)
  {
    AllCubeRoots();
    SquareRoots();
    assert |K| == 64;
  }
}
