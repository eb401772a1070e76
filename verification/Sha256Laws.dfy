/** What pins the functions and constants of FIPS 180-4 down apart from their
    own definitions: the constants are fractions of roots of the first primes,
    the functions are given bit by bit, a round and the padding in numbers. */
module Sha256Laws {
  import opened CTypes
  import opened Bits
  import opened Sha256

  // ---- the first 64 primes ----

  const PRIMES: seq<nat> :=
    [2, 3, 5, 7, 11, 13, 17, 19] +
    [23, 29, 31, 37, 41, 43, 47, 53] +
    [59, 61, 67, 71, 73, 79, 83, 89] +
    [97, 101, 103, 107, 109, 113, 127, 131] +
    [137, 139, 149, 151, 157, 163, 167, 173] +
    [179, 181, 191, 193, 197, 199, 211, 223] +
    [227, 229, 233, 239, 241, 251, 257, 263] +
    [269, 271, 277, 281, 283, 293, 307, 311]

  predicate IsPrime(n: nat) {
    n >= 2 && forall d :: 2 <= d < n ==> !Divides(d, n)
  }

  predicate Divides(d: nat, n: nat)
    requires d > 0
  {
    n % d == 0
  }

  /** A prime up to 17 divides n, other than n itself. */
  predicate HasSmallFactor(n: nat) {
    || (n % 2 == 0 && n > 2) || (n % 3 == 0 && n > 3) || (n % 5 == 0 && n > 5) || (n % 7 == 0 && n > 7)
    || (n % 11 == 0 && n > 11) || (n % 13 == 0 && n > 13) || (n % 17 == 0 && n > 17)
  }

  lemma SmallDivisor(n: nat, d: nat)
    requires 2 <= d <= 17 && d < n && n % d == 0
    ensures HasSmallFactor(n)
  {
    match d {
      case 4 => FactorOfDivisor(n, 2, 2);
      case 6 => FactorOfDivisor(n, 2, 3);
      case 8 => FactorOfDivisor(n, 2, 4);
      case 9 => FactorOfDivisor(n, 3, 3);
      case 10 => FactorOfDivisor(n, 2, 5);
      case 12 => FactorOfDivisor(n, 2, 6);
      case 14 => FactorOfDivisor(n, 2, 7);
      case 15 => FactorOfDivisor(n, 3, 5);
      case 16 => FactorOfDivisor(n, 2, 8);
      case _ =>
    }
  }

  lemma FactorOfDivisor(n: nat, f: nat, g: nat)
    requires f > 0 && g > 0 && n % (f * g) == 0
    ensures n % f == 0
  {
    var k := n / (f * g);
    assert n == f * g * k == f * (g * k);
    DivMod(n, f, g * k, 0);
  }

  /** Below 18 * 18 trial division up to 17 decides. */
  lemma TrialDivision(n: nat)
    requires 2 <= n < 324
    ensures IsPrime(n) <==> !HasSmallFactor(n)
  {
    if HasSmallFactor(n) {
      assert Divides(2, n) || Divides(3, n) || Divides(5, n) || Divides(7, n)
             || Divides(11, n) || Divides(13, n) || Divides(17, n);
    } else if !IsPrime(n) {
      var d :| 2 <= d < n && Divides(d, n);
      Cofactor(n, d);
      SmallDivisor(n, if d <= 17 then d else n / d);
    }
  }

  lemma Cofactor(n: nat, d: nat)
    requires 2 <= d < n < 324 && n % d == 0
    ensures 2 <= n / d < n && n % (n / d) == 0 && (d <= 17 || n / d <= 17)
  {
    var e := n / d;
    assert n == d * e;
    assert d * 0 == 0 && d * 1 == d;
    DivMod(n, e, d, 0);
    if d >= 18 && e >= 18 { Products(d, e); }
    Products2(d, e);
  }

  lemma Products(d: nat, e: nat)
    requires d >= 18 && e >= 18
    ensures d * e >= 324
  {
    assert d * e >= 18 * e;
  }

  lemma Products2(d: nat, e: nat)
    requires d >= 2 && e >= 1
    ensures d * e > e
  {
  }

  lemma Sift0(n: nat)
    requires 2 <= n <= 7
    ensures !HasSmallFactor(n) <==> n == 2 || n == 3 || n == 5 || n == 7
  {
  }

  lemma Sift1(n: nat)
    requires 8 <= n <= 19
    ensures !HasSmallFactor(n) <==> n == 11 || n == 13 || n == 17 || n == 19
  {
  }

  lemma Sift2(n: nat)
    requires 20 <= n <= 37
    ensures !HasSmallFactor(n) <==> n == 23 || n == 29 || n == 31 || n == 37
  {
  }

  lemma Sift3(n: nat)
    requires 38 <= n <= 53
    ensures !HasSmallFactor(n) <==> n == 41 || n == 43 || n == 47 || n == 53
  {
  }

  lemma Sift4(n: nat)
    requires 54 <= n <= 71
    ensures !HasSmallFactor(n) <==> n == 59 || n == 61 || n == 67 || n == 71
  {
  }

  lemma Sift5(n: nat)
    requires 72 <= n <= 89
    ensures !HasSmallFactor(n) <==> n == 73 || n == 79 || n == 83 || n == 89
  {
  }

  lemma Sift6(n: nat)
    requires 90 <= n <= 107
    ensures !HasSmallFactor(n) <==> n == 97 || n == 101 || n == 103 || n == 107
  {
  }

  lemma Sift7(n: nat)
    requires 108 <= n <= 131
    ensures !HasSmallFactor(n) <==> n == 109 || n == 113 || n == 127 || n == 131
  {
    assert n == 108 || n == 109 || n == 110 || n == 111 || n == 112 || n == 113 || n == 114 || n == 115
           || n == 116 || n == 117 || n == 118 || n == 119 || n == 120 || n == 121 || n == 122 || n == 123
           || n == 124 || n == 125 || n == 126 || n == 127 || n == 128 || n == 129 || n == 130 || n == 131;
  }

  lemma Sift8(n: nat)
    requires 132 <= n <= 151
    ensures !HasSmallFactor(n) <==> n == 137 || n == 139 || n == 149 || n == 151
  {
    assert n == 132 || n == 133 || n == 134 || n == 135 || n == 136 || n == 137 || n == 138 || n == 139
           || n == 140 || n == 141 || n == 142 || n == 143 || n == 144 || n == 145 || n == 146 || n == 147
           || n == 148 || n == 149 || n == 150 || n == 151;
  }

  lemma Sift9(n: nat)
    requires 152 <= n <= 173
    ensures !HasSmallFactor(n) <==> n == 157 || n == 163 || n == 167 || n == 173
  {
  }

  lemma Sift10(n: nat)
    requires 174 <= n <= 193
    ensures !HasSmallFactor(n) <==> n == 179 || n == 181 || n == 191 || n == 193
  {
  }

  lemma Sift11(n: nat)
    requires 194 <= n <= 223
    ensures !HasSmallFactor(n) <==> n == 197 || n == 199 || n == 211 || n == 223
  {
    assert n == 194 || n == 195 || n == 196 || n == 197 || n == 198 || n == 199 || n == 200 || n == 201
           || n == 202 || n == 203 || n == 204 || n == 205 || n == 206 || n == 207 || n == 208 || n == 209
           || n == 210 || n == 211 || n == 212 || n == 213 || n == 214 || n == 215 || n == 216 || n == 217
           || n == 218 || n == 219 || n == 220 || n == 221 || n == 222 || n == 223;
  }

  lemma Sift12(n: nat)
    requires 224 <= n <= 239
    ensures !HasSmallFactor(n) <==> n == 227 || n == 229 || n == 233 || n == 239
  {
  }

  lemma Sift13(n: nat)
    requires 240 <= n <= 263
    ensures !HasSmallFactor(n) <==> n == 241 || n == 251 || n == 257 || n == 263
  {
  }

  lemma Sift14(n: nat)
    requires 264 <= n <= 281
    ensures !HasSmallFactor(n) <==> n == 269 || n == 271 || n == 277 || n == 281
  {
  }

  lemma Sift15(n: nat)
    requires 282 <= n <= 311
    ensures !HasSmallFactor(n) <==> n == 283 || n == 293 || n == 307 || n == 311
  {
    assert n == 282 || n == 283 || n == 284 || n == 285 || n == 286 || n == 287 || n == 288 || n == 289
           || n == 290 || n == 291 || n == 292 || n == 293 || n == 294 || n == 295 || n == 296 || n == 297
           || n == 298 || n == 299 || n == 300 || n == 301 || n == 302 || n == 303 || n == 304 || n == 305
           || n == 306 || n == 307 || n == 308 || n == 309 || n == 310 || n == 311;
  }

  predicate InRow0(n: nat) {
    || n == 2 || n == 3 || n == 5 || n == 7 || n == 11 || n == 13 || n == 17 || n == 19
    || n == 23 || n == 29 || n == 31 || n == 37 || n == 41 || n == 43 || n == 47 || n == 53
  }

  lemma SiftRow0(n: nat)
    requires 2 <= n <= 53
    ensures !HasSmallFactor(n) <==> InRow0(n)
  {
    if n <= 7 { Sift0(n); }
    else if n <= 19 { Sift1(n); }
    else if n <= 37 { Sift2(n); }
    else { Sift3(n); }
  }

  predicate InRow1(n: nat) {
    || n == 59 || n == 61 || n == 67 || n == 71 || n == 73 || n == 79 || n == 83 || n == 89
    || n == 97 || n == 101 || n == 103 || n == 107 || n == 109 || n == 113 || n == 127 || n == 131
  }

  lemma SiftRow1(n: nat)
    requires 54 <= n <= 131
    ensures !HasSmallFactor(n) <==> InRow1(n)
  {
    if n <= 71 { Sift4(n); }
    else if n <= 89 { Sift5(n); }
    else if n <= 107 { Sift6(n); }
    else { Sift7(n); }
  }

  predicate InRow2(n: nat) {
    || n == 137 || n == 139 || n == 149 || n == 151 || n == 157 || n == 163 || n == 167 || n == 173
    || n == 179 || n == 181 || n == 191 || n == 193 || n == 197 || n == 199 || n == 211 || n == 223
  }

  lemma SiftRow2(n: nat)
    requires 132 <= n <= 223
    ensures !HasSmallFactor(n) <==> InRow2(n)
  {
    if n <= 151 { Sift8(n); }
    else if n <= 173 { Sift9(n); }
    else if n <= 193 { Sift10(n); }
    else { Sift11(n); }
  }

  predicate InRow3(n: nat) {
    || n == 227 || n == 229 || n == 233 || n == 239 || n == 241 || n == 251 || n == 257 || n == 263
    || n == 269 || n == 271 || n == 277 || n == 281 || n == 283 || n == 293 || n == 307 || n == 311
  }

  lemma SiftRow3(n: nat)
    requires 224 <= n <= 311
    ensures !HasSmallFactor(n) <==> InRow3(n)
  {
    if n <= 239 { Sift12(n); }
    else if n <= 263 { Sift13(n); }
    else if n <= 281 { Sift14(n); }
    else { Sift15(n); }
  }

  lemma FirstPrimes(n: nat)
    requires n <= 311
    ensures n in PRIMES <==> IsPrime(n)
  {
    Rows(n);
    if n >= 2 {
      TrialDivision(n);
      if n <= 53 { SiftRow0(n); }
      else if n <= 131 { SiftRow1(n); }
      else if n <= 223 { SiftRow2(n); }
      else { SiftRow3(n); }
    }
  }

  lemma Rows(n: nat)
    ensures n in PRIMES <==> InRow0(n) || InRow1(n) || InRow2(n) || InRow3(n)
  {
  }

  lemma Increasing(i: nat)
    requires i < 63
    ensures |PRIMES| == 64 && PRIMES[i] < PRIMES[i+1]
  {
  }

  /** The list holds the first 64 primes in order. */
  lemma PrimesAreFirst()
    ensures |PRIMES| == 64 && forall i :: 0 <= i < 63 ==> PRIMES[i] < PRIMES[i+1]
    ensures forall n: nat :: n <= 311 ==> (n in PRIMES <==> IsPrime(n))
  {
    forall i | 0 <= i < 63 ensures PRIMES[i] < PRIMES[i+1] { Increasing(i); }
    forall n: nat | n <= 311 ensures n in PRIMES <==> IsPrime(n) { FirstPrimes(n); }
  }

  // ---- the constants of sections 4.2.2 and 5.3.3 ----

  function Cube(x: nat): nat { x * x * x }
  function Square(x: nat): nat { x * x }

  /** k is the first 32 bits of the fraction of the cube root of p, whose
      whole part is q. */
  predicate CubeRoot(q: nat, k: nat, p: nat) {
    Cube(q * 0x1_0000_0000 + k) <= p * 0x1_0000_0000_0000_0000_0000_0000 < Cube(q * 0x1_0000_0000 + k + 1)
  }

  predicate SquareRoot(q: nat, k: nat, p: nat) {
    Square(q * 0x1_0000_0000 + k) <= p * 0x1_0000_0000_0000_0000 < Square(q * 0x1_0000_0000 + k + 1)
  }

  ghost predicate IsCubeRoot(k: nat, p: nat) {
    exists q: nat :: CubeRoot(q, k, p)
  }

  ghost predicate IsSquareRoot(k: nat, p: nat) {
    exists q: nat :: SquareRoot(q, k, p)
  }

  lemma CubeRoots0(t: nat)
    requires 0 <= t < 8
    ensures IsCubeRoot(K[t], PRIMES[t])
  {
    if t == 0 { assert K[0] == 0x428a2f98 && PRIMES[0] == 2 && CubeRoot(1, 0x428a2f98, 2); }
    else if t == 1 { assert K[1] == 0x71374491 && PRIMES[1] == 3 && CubeRoot(1, 0x71374491, 3); }
    else if t == 2 { assert K[2] == 0xb5c0fbcf && PRIMES[2] == 5 && CubeRoot(1, 0xb5c0fbcf, 5); }
    else if t == 3 { assert K[3] == 0xe9b5dba5 && PRIMES[3] == 7 && CubeRoot(1, 0xe9b5dba5, 7); }
    else if t == 4 { assert K[4] == 0x3956c25b && PRIMES[4] == 11 && CubeRoot(2, 0x3956c25b, 11); }
    else if t == 5 { assert K[5] == 0x59f111f1 && PRIMES[5] == 13 && CubeRoot(2, 0x59f111f1, 13); }
    else if t == 6 { assert K[6] == 0x923f82a4 && PRIMES[6] == 17 && CubeRoot(2, 0x923f82a4, 17); }
    else { assert K[7] == 0xab1c5ed5 && PRIMES[7] == 19 && CubeRoot(2, 0xab1c5ed5, 19); }
  }

  lemma CubeRoots1(t: nat)
    requires 8 <= t < 16
    ensures IsCubeRoot(K[t], PRIMES[t])
  {
    if t == 8 { assert K[8] == 0xd807aa98 && PRIMES[8] == 23 && CubeRoot(2, 0xd807aa98, 23); }
    else if t == 9 { assert K[9] == 0x12835b01 && PRIMES[9] == 29 && CubeRoot(3, 0x12835b01, 29); }
    else if t == 10 { assert K[10] == 0x243185be && PRIMES[10] == 31 && CubeRoot(3, 0x243185be, 31); }
    else if t == 11 { assert K[11] == 0x550c7dc3 && PRIMES[11] == 37 && CubeRoot(3, 0x550c7dc3, 37); }
    else if t == 12 { assert K[12] == 0x72be5d74 && PRIMES[12] == 41 && CubeRoot(3, 0x72be5d74, 41); }
    else if t == 13 { assert K[13] == 0x80deb1fe && PRIMES[13] == 43 && CubeRoot(3, 0x80deb1fe, 43); }
    else if t == 14 { assert K[14] == 0x9bdc06a7 && PRIMES[14] == 47 && CubeRoot(3, 0x9bdc06a7, 47); }
    else { assert K[15] == 0xc19bf174 && PRIMES[15] == 53 && CubeRoot(3, 0xc19bf174, 53); }
  }

  lemma CubeRoots2(t: nat)
    requires 16 <= t < 24
    ensures IsCubeRoot(K[t], PRIMES[t])
  {
    if t == 16 { assert K[16] == 0xe49b69c1 && PRIMES[16] == 59 && CubeRoot(3, 0xe49b69c1, 59); }
    else if t == 17 { assert K[17] == 0xefbe4786 && PRIMES[17] == 61 && CubeRoot(3, 0xefbe4786, 61); }
    else if t == 18 { assert K[18] == 0x0fc19dc6 && PRIMES[18] == 67 && CubeRoot(4, 0x0fc19dc6, 67); }
    else if t == 19 { assert K[19] == 0x240ca1cc && PRIMES[19] == 71 && CubeRoot(4, 0x240ca1cc, 71); }
    else if t == 20 { assert K[20] == 0x2de92c6f && PRIMES[20] == 73 && CubeRoot(4, 0x2de92c6f, 73); }
    else if t == 21 { assert K[21] == 0x4a7484aa && PRIMES[21] == 79 && CubeRoot(4, 0x4a7484aa, 79); }
    else if t == 22 { assert K[22] == 0x5cb0a9dc && PRIMES[22] == 83 && CubeRoot(4, 0x5cb0a9dc, 83); }
    else { assert K[23] == 0x76f988da && PRIMES[23] == 89 && CubeRoot(4, 0x76f988da, 89); }
  }

  lemma CubeRoots3(t: nat)
    requires 24 <= t < 32
    ensures IsCubeRoot(K[t], PRIMES[t])
  {
    if t == 24 { assert K[24] == 0x983e5152 && PRIMES[24] == 97 && CubeRoot(4, 0x983e5152, 97); }
    else if t == 25 { assert K[25] == 0xa831c66d && PRIMES[25] == 101 && CubeRoot(4, 0xa831c66d, 101); }
    else if t == 26 { assert K[26] == 0xb00327c8 && PRIMES[26] == 103 && CubeRoot(4, 0xb00327c8, 103); }
    else if t == 27 { assert K[27] == 0xbf597fc7 && PRIMES[27] == 107 && CubeRoot(4, 0xbf597fc7, 107); }
    else if t == 28 { assert K[28] == 0xc6e00bf3 && PRIMES[28] == 109 && CubeRoot(4, 0xc6e00bf3, 109); }
    else if t == 29 { assert K[29] == 0xd5a79147 && PRIMES[29] == 113 && CubeRoot(4, 0xd5a79147, 113); }
    else if t == 30 { assert K[30] == 0x06ca6351 && PRIMES[30] == 127 && CubeRoot(5, 0x06ca6351, 127); }
    else { assert K[31] == 0x14292967 && PRIMES[31] == 131 && CubeRoot(5, 0x14292967, 131); }
  }

  lemma CubeRoots4(t: nat)
    requires 32 <= t < 40
    ensures IsCubeRoot(K[t], PRIMES[t])
  {
    if t == 32 { assert K[32] == 0x27b70a85 && PRIMES[32] == 137 && CubeRoot(5, 0x27b70a85, 137); }
    else if t == 33 { assert K[33] == 0x2e1b2138 && PRIMES[33] == 139 && CubeRoot(5, 0x2e1b2138, 139); }
    else if t == 34 { assert K[34] == 0x4d2c6dfc && PRIMES[34] == 149 && CubeRoot(5, 0x4d2c6dfc, 149); }
    else if t == 35 { assert K[35] == 0x53380d13 && PRIMES[35] == 151 && CubeRoot(5, 0x53380d13, 151); }
    else if t == 36 { assert K[36] == 0x650a7354 && PRIMES[36] == 157 && CubeRoot(5, 0x650a7354, 157); }
    else if t == 37 { assert K[37] == 0x766a0abb && PRIMES[37] == 163 && CubeRoot(5, 0x766a0abb, 163); }
    else if t == 38 { assert K[38] == 0x81c2c92e && PRIMES[38] == 167 && CubeRoot(5, 0x81c2c92e, 167); }
    else { assert K[39] == 0x92722c85 && PRIMES[39] == 173 && CubeRoot(5, 0x92722c85, 173); }
  }

  lemma CubeRoots5(t: nat)
    requires 40 <= t < 48
    ensures IsCubeRoot(K[t], PRIMES[t])
  {
    if t == 40 { assert K[40] == 0xa2bfe8a1 && PRIMES[40] == 179 && CubeRoot(5, 0xa2bfe8a1, 179); }
    else if t == 41 { assert K[41] == 0xa81a664b && PRIMES[41] == 181 && CubeRoot(5, 0xa81a664b, 181); }
    else if t == 42 { assert K[42] == 0xc24b8b70 && PRIMES[42] == 191 && CubeRoot(5, 0xc24b8b70, 191); }
    else if t == 43 { assert K[43] == 0xc76c51a3 && PRIMES[43] == 193 && CubeRoot(5, 0xc76c51a3, 193); }
    else if t == 44 { assert K[44] == 0xd192e819 && PRIMES[44] == 197 && CubeRoot(5, 0xd192e819, 197); }
    else if t == 45 { assert K[45] == 0xd6990624 && PRIMES[45] == 199 && CubeRoot(5, 0xd6990624, 199); }
    else if t == 46 { assert K[46] == 0xf40e3585 && PRIMES[46] == 211 && CubeRoot(5, 0xf40e3585, 211); }
    else { assert K[47] == 0x106aa070 && PRIMES[47] == 223 && CubeRoot(6, 0x106aa070, 223); }
  }

  lemma CubeRoots6(t: nat)
    requires 48 <= t < 56
    ensures IsCubeRoot(K[t], PRIMES[t])
  {
    if t == 48 { assert K[48] == 0x19a4c116 && PRIMES[48] == 227 && CubeRoot(6, 0x19a4c116, 227); }
    else if t == 49 { assert K[49] == 0x1e376c08 && PRIMES[49] == 229 && CubeRoot(6, 0x1e376c08, 229); }
    else if t == 50 { assert K[50] == 0x2748774c && PRIMES[50] == 233 && CubeRoot(6, 0x2748774c, 233); }
    else if t == 51 { assert K[51] == 0x34b0bcb5 && PRIMES[51] == 239 && CubeRoot(6, 0x34b0bcb5, 239); }
    else if t == 52 { assert K[52] == 0x391c0cb3 && PRIMES[52] == 241 && CubeRoot(6, 0x391c0cb3, 241); }
    else if t == 53 { assert K[53] == 0x4ed8aa4a && PRIMES[53] == 251 && CubeRoot(6, 0x4ed8aa4a, 251); }
    else if t == 54 { assert K[54] == 0x5b9cca4f && PRIMES[54] == 257 && CubeRoot(6, 0x5b9cca4f, 257); }
    else { assert K[55] == 0x682e6ff3 && PRIMES[55] == 263 && CubeRoot(6, 0x682e6ff3, 263); }
  }

  lemma CubeRoots7(t: nat)
    requires 56 <= t < 64
    ensures IsCubeRoot(K[t], PRIMES[t])
  {
    if t == 56 { assert K[56] == 0x748f82ee && PRIMES[56] == 269 && CubeRoot(6, 0x748f82ee, 269); }
    else if t == 57 { assert K[57] == 0x78a5636f && PRIMES[57] == 271 && CubeRoot(6, 0x78a5636f, 271); }
    else if t == 58 { assert K[58] == 0x84c87814 && PRIMES[58] == 277 && CubeRoot(6, 0x84c87814, 277); }
    else if t == 59 { assert K[59] == 0x8cc70208 && PRIMES[59] == 281 && CubeRoot(6, 0x8cc70208, 281); }
    else if t == 60 { assert K[60] == 0x90befffa && PRIMES[60] == 283 && CubeRoot(6, 0x90befffa, 283); }
    else if t == 61 { assert K[61] == 0xa4506ceb && PRIMES[61] == 293 && CubeRoot(6, 0xa4506ceb, 293); }
    else if t == 62 { assert K[62] == 0xbef9a3f7 && PRIMES[62] == 307 && CubeRoot(6, 0xbef9a3f7, 307); }
    else { assert K[63] == 0xc67178f2 && PRIMES[63] == 311 && CubeRoot(6, 0xc67178f2, 311); }
  }

  /** The round constants are the first 32 bits of the fractions of the cube
      roots of the first 64 primes. */
  lemma ConstantsAreCubeRoots(t: nat)
    requires t < 64
    ensures |K| == 64 && IsCubeRoot(K[t], PRIMES[t])
  {
    if t < 8 { CubeRoots0(t); }
    else if t < 16 { CubeRoots1(t); }
    else if t < 24 { CubeRoots2(t); }
    else if t < 32 { CubeRoots3(t); }
    else if t < 40 { CubeRoots4(t); }
    else if t < 48 { CubeRoots5(t); }
    else if t < 56 { CubeRoots6(t); }
    else { CubeRoots7(t); }
  }

  /** The initial hash value is the same of the square roots of the first
      eight primes. */
  lemma InitialIsSquareRoots(t: nat)
    requires t < 8
    ensures |INITIAL| == 8 && IsSquareRoot(INITIAL[t], PRIMES[t])
  {
    if t == 0 { assert PRIMES[0] == 2 && SquareRoot(1, 0x6a09e667, 2); }
    else if t == 1 { assert PRIMES[1] == 3 && SquareRoot(1, 0xbb67ae85, 3); }
    else if t == 2 { assert PRIMES[2] == 5 && SquareRoot(2, 0x3c6ef372, 5); }
    else if t == 3 { assert PRIMES[3] == 7 && SquareRoot(2, 0xa54ff53a, 7); }
    else if t == 4 { assert PRIMES[4] == 11 && SquareRoot(3, 0x510e527f, 11); }
    else if t == 5 { assert PRIMES[5] == 13 && SquareRoot(3, 0x9b05688c, 13); }
    else if t == 6 { assert PRIMES[6] == 17 && SquareRoot(4, 0x1f83d9ab, 17); }
    else { assert PRIMES[7] == 19 && SquareRoot(4, 0x5be0cd19, 19); }
  }

  // ---- the functions of section 4.1.2, bit by bit ----

  /** Where x has a 1 the bit of y, else that of z. */
  lemma ChBits(x: Word, y: Word, z: Word, k: nat)
    requires k < 32
    ensures Bit(Ch(x, y, z), k) == if Bit(x, k) == 1 then Bit(y, k) else Bit(z, k)
  {
    BitOfXor(And(x, y), And(Not(x), z), k);
    BitOfAnd(x, y, k);
    BitOfAnd(Not(x), z, k);
    BitOfNot(x, k);
  }

  /** The majority of the three bits. */
  lemma MajBits(x: Word, y: Word, z: Word, k: nat)
    ensures Bit(Maj(x, y, z), k) == if Bit(x, k) + Bit(y, k) + Bit(z, k) >= 2 then 1 else 0
  {
    BitOfXor(Xor(And(x, y), And(x, z)), And(y, z), k);
    BitOfXor(And(x, y), And(x, z), k);
    BitOfAnd(x, y, k);
    BitOfAnd(x, z, k);
    BitOfAnd(y, z, k);
  }

  lemma ThreeBits(x: nat, y: nat, z: nat, k: nat)
    ensures Bit(Xor(Xor(x, y), z), k) == (Bit(x, k) + Bit(y, k) + Bit(z, k)) % 2
  {
    BitOfXor(Xor(x, y), z, k);
    BitOfXor(x, y, k);
  }

  lemma BigSigmaBits(x: Word, k: nat)
    requires k < 32
    ensures Bit(BigSigma0(x), k) == (Bit(x, (k + 2) % 32) + Bit(x, (k + 13) % 32) + Bit(x, (k + 22) % 32)) % 2
    ensures Bit(BigSigma1(x), k) == (Bit(x, (k + 6) % 32) + Bit(x, (k + 11) % 32) + Bit(x, (k + 25) % 32)) % 2
  {
    ThreeBits(Rotr(x, 2), Rotr(x, 13), Rotr(x, 22), k);
    ThreeBits(Rotr(x, 6), Rotr(x, 11), Rotr(x, 25), k);
    BitOfRotr(x, 2, k);
    BitOfRotr(x, 13, k);
    BitOfRotr(x, 22, k);
    BitOfRotr(x, 6, k);
    BitOfRotr(x, 11, k);
    BitOfRotr(x, 25, k);
  }

  lemma SmallSigmaBits(x: Word, k: nat)
    requires k < 32
    ensures Bit(Sigma0(x), k) == (Bit(x, (k + 7) % 32) + Bit(x, (k + 18) % 32) + Bit(x, k + 3)) % 2
    ensures Bit(Sigma1(x), k) == (Bit(x, (k + 17) % 32) + Bit(x, (k + 19) % 32) + Bit(x, k + 10)) % 2
  {
    ThreeBits(Rotr(x, 7), Rotr(x, 18), Shr(x, 3), k);
    ThreeBits(Rotr(x, 17), Rotr(x, 19), Shr(x, 10), k);
    BitOfRotr(x, 7, k);
    BitOfRotr(x, 18, k);
    BitOfRotr(x, 17, k);
    BitOfRotr(x, 19, k);
    BitOfShr(x, 3, k);
    BitOfShr(x, 10, k);
  }

  // ---- a round, the schedule and the result as sums ----

  lemma FourSums(a: nat, b: nat, c: nat, d: nat, e: nat)
    ensures Add(Add(Add(a, b), c), d) == (a + b + c + d) % 0x1_0000_0000
    ensures Add(Add(Add(Add(a, b), c), d), e) == (a + b + c + d + e) % 0x1_0000_0000
  {
    AddOfSum(a + b, c);
    AddOfSum(a + b + c, d);
    AddOfSum(a + b + c + d, e);
  }

  lemma RoundInNumbers(v: Vars, k: Word, w: Word)
    ensures var r := Round(v, k, w);
            var t1 := v.h + BigSigma1(v.e) + Ch(v.e, v.f, v.g) + k + w;
            && r.a == (t1 + BigSigma0(v.a) + Maj(v.a, v.b, v.c)) % 0x1_0000_0000
            && r.e == (v.d + t1) % 0x1_0000_0000
            && r.b == v.a && r.c == v.b && r.d == v.c && r.f == v.e && r.g == v.f && r.h == v.g
  {
    RoundSums(v.h, BigSigma1(v.e), Ch(v.e, v.f, v.g), k, w, BigSigma0(v.a), Maj(v.a, v.b, v.c), v.d);
  }

  lemma RoundSums(h: nat, s1: nat, ch: nat, k: nat, w: nat, s0: nat, maj: nat, d: nat)
    ensures var t1, sum := Add(Add(Add(Add(h, s1), ch), k), w), h + s1 + ch + k + w;
            Add(t1, Add(s0, maj)) == (sum + s0 + maj) % 0x1_0000_0000 && Add(d, t1) == (d + sum) % 0x1_0000_0000
  {
    var sum := h + s1 + ch + k + w;
    FourSums(h, s1, ch, k, w);
    TwoSums(sum, s0 + maj);
    AddOfSum(sum, d);
  }

  lemma TwoSums(a: nat, b: nat)
    ensures Add(a % 0x1_0000_0000, b % 0x1_0000_0000) == (a + b) % 0x1_0000_0000
  {
    AddOfSum(a, b % 0x1_0000_0000);
    AddOfSum(b, a);
  }

  lemma ScheduleInNumbers(b: Block, t: nat)
    requires t < 64
    ensures Schedule(b, t)
         == if t < 16 then b[4*t] * 0x100_0000 + b[4*t+1] * 0x1_0000 + b[4*t+2] * 0x100 + b[4*t+3]
            else (Sigma1(Schedule(b, t - 2)) + Schedule(b, t - 7) + Sigma0(Schedule(b, t - 15)) + Schedule(b, t - 16))
                 % 0x1_0000_0000
  {
    if t >= 16 { LaterWord(b, t); }
  }

  lemma LaterWord(b: Block, t: nat)
    requires 16 <= t < 64
    ensures Schedule(b, t)
         == (Sigma1(Schedule(b, t - 2)) + Schedule(b, t - 7) + Sigma0(Schedule(b, t - 15)) + Schedule(b, t - 16))
            % 0x1_0000_0000
  {
    ScheduleAt(b, t);
    NextWordIs(Schedule(b, t - 16), Schedule(b, t - 15), Schedule(b, t - 7), Schedule(b, t - 2));
  }

  lemma NextWordIs(w16: Word, w15: Word, w7: Word, w2: Word)
    ensures NextWord(w16, w15, w7, w2) == (Sigma1(w2) + w7 + Sigma0(w15) + w16) % 0x1_0000_0000
  {
    FourSums(w16, Sigma0(w15), w7, Sigma1(w2), 0);
  }

  /** The working variables are added to the hash value word by word. */
  lemma AddVarsInNumbers(v: Vars, h: Hash)
    ensures AddVars(v, h) ==
              [(v.a + h[0]) % 0x1_0000_0000, (v.b + h[1]) % 0x1_0000_0000, (v.c + h[2]) % 0x1_0000_0000,
               (v.d + h[3]) % 0x1_0000_0000, (v.e + h[4]) % 0x1_0000_0000, (v.f + h[5]) % 0x1_0000_0000,
               (v.g + h[6]) % 0x1_0000_0000, (v.h + h[7]) % 0x1_0000_0000]
  {
  }

  // ---- the padding of section 5.1.1 ----

  /** A number taken apart into four bytes and what is above them. */
  lemma Quarters(x: nat, x1: nat, x2: nat, x3: nat, x4: nat)
    requires x1 == x / 256 && x2 == x1 / 256 && x3 == x2 / 256 && x4 == x3 / 256
    ensures x / 0x1_0000_0000 == x4
    ensures x % 0x1_0000_0000 == x3 % 256 * 0x100_0000 + x2 % 256 * 0x1_0000 + x1 % 256 * 0x100 + x % 256
  {
    var low := x3 % 256 * 0x100_0000 + x2 % 256 * 0x1_0000 + x1 % 256 * 0x100 + x % 256;
    assert x == 256 * x1 + x % 256 && x1 == 256 * x2 + x1 % 256;
    assert x2 == 256 * x3 + x2 % 256 && x3 == 256 * x4 + x3 % 256;
    DivMod(x, 0x1_0000_0000, x4, low);
  }

  lemma FourBytes(x: nat)
    ensures x % 0x1_0000_0000 == BigEndian(ByteAt(x, 3), ByteAt(x, 2), ByteAt(x, 1), ByteAt(x, 0))
  {
    var x1 := x / 256;
    var x2 := x1 / 256;
    var x3 := x2 / 256;
    Quarters(x, x1, x2, x3, x3 / 256);
    assert ByteAt(x, 3) == ByteAt(x1, 2) == ByteAt(x2, 1) == ByteAt(x3, 0);
    assert ByteAt(x, 2) == ByteAt(x1, 1) == ByteAt(x2, 0);
  }

  lemma UpperByte(x: nat, i: nat)
    ensures ByteAt(x, i + 4) == ByteAt(x / 0x1_0000_0000, i)
  {
    var x1 := x / 256;
    var x2 := x1 / 256;
    var x3 := x2 / 256;
    Quarters(x, x1, x2, x3, x3 / 256);
    assert ByteAt(x, i + 4) == ByteAt(x1, i + 3) == ByteAt(x2, i + 2) == ByteAt(x3, i + 1) == ByteAt(x3 / 256, i);
  }

  lemma Length64Is(bits: nat)
    requires bits < 0x1_0000_0000_0000_0000
    ensures var s := Length64(bits);
            bits == BigEndian(s[0], s[1], s[2], s[3]) * 0x1_0000_0000 + BigEndian(s[4], s[5], s[6], s[7])
  {
    var high := bits / 0x1_0000_0000;
    FourBytes(bits);
    FourBytes(high);
    UpperByte(bits, 0);
    UpperByte(bits, 1);
    UpperByte(bits, 2);
    UpperByte(bits, 3);
    assert bits == 0x1_0000_0000 * high + bits % 0x1_0000_0000;
    DivMod(high, 0x1_0000_0000, 0, high);
  }

  /** The message, one 1 bit, 0 bits up to the last eight bytes of a block,
      and in those the message's length in bits; no block more than needed. */
  lemma PadInNumbers(m: seq<Byte>)
    requires 8 * |m| < 0x1_0000_0000_0000_0000
    ensures var p, n := Pad(m), |Pad(m)|;
            && n % 64 == 0 && |m| + 9 <= n < |m| + 9 + 64
            && p[..|m|] == m && p[|m|] == 128 && (forall i :: |m| < i < n - 8 ==> p[i] == 0)
            && 8 * |m| == BigEndian(p[n-8], p[n-7], p[n-6], p[n-5]) * 0x1_0000_0000
                          + BigEndian(p[n-4], p[n-3], p[n-2], p[n-1])
  {
    Length64Is(8 * |m|);
  }
}
