/** The bitwise operators of C on unsigned words, defined bit by bit on
    numbers, and addition modulo 2^32. */
module Bits {
  import opened CTypes

  function Xor(x: nat, y: nat): nat
    decreases x + y
  {
    if x == 0 && y == 0 then 0 else 2 * Xor(x / 2, y / 2) + (x + y) % 2
  }

  function And(x: nat, y: nat): nat
    decreases x + y
  {
    if x == 0 || y == 0 then 0 else 2 * And(x / 2, y / 2) + (if x % 2 == y % 2 == 1 then 1 else 0)
  }

  /** ~x on 32 bits. */
  function Not(x: uint32): uint32 {
    TWO_32 - 1 - x
  }

  function Shr(x: nat, n: nat): nat
    decreases n, x
  {
    if n == 0 then x else Shr(x / 2, n - 1)
  }

  function Shl(x: nat, n: nat): nat
    decreases n, x
  {
    if n == 0 then x else 2 * Shl(x, n - 1)
  }

  lemma {:induction false} ShrAdds(x: nat, a: nat, b: nat)
    ensures Shr(x, a + b) == Shr(Shr(x, a), b)
    decreases a
  {
    if a > 0 { ShrAdds(x / 2, a - 1, b); }
  }

  lemma {:induction false} ShlAdds(x: nat, a: nat, b: nat)
    ensures Shl(x, a + b) == Shl(Shl(x, a), b)
    decreases b
  {
    if b > 0 { ShlAdds(x, a, b - 1); }
  }

  lemma {:induction false} ShlDistributes(x: nat, y: nat, n: nat)
    ensures Shl(x + y, n) == Shl(x, n) + Shl(y, n)
    decreases n
  {
    if n > 0 { ShlDistributes(x, y, n - 1); }
  }

  lemma {:induction false} ShrUndoesShl(x: nat, n: nat)
    ensures Shr(Shl(x, n), n) == x
    decreases n
  {
    if n > 0 { ShrUndoesShl(x, n - 1); }
  }

  lemma ShiftLeftIsTimes(x: nat)
    ensures Shl(x, 2) == 4 * x && Shl(x, 4) == 16 * x && Shl(x, 6) == 64 * x && Shl(x, 8) == 256 * x
  {
    ShlTwo(x);
    ShlTwo(4 * x);
    ShlTwo(16 * x);
    ShlTwo(64 * x);
    ShlAdds(x, 2, 2);
    ShlAdds(x, 4, 2);
    ShlAdds(x, 6, 2);
  }

  lemma ShlTwo(x: nat)
    ensures Shl(x, 2) == 4 * x
  {
    assert Shl(x, 2) == 2 * Shl(x, 1) == 2 * (2 * Shl(x, 0));
  }

  lemma ShiftRightIsOver(x: nat)
    ensures Shr(x, 2) == x / 4 && Shr(x, 4) == x / 16 && Shr(x, 6) == x / 64 && Shr(x, 8) == x / 256
  {
    ShrTwo(x);
    ShrTwo(x / 4);
    ShrTwo(x / 16);
    ShrTwo(x / 64);
    ShrAdds(x, 2, 2);
    ShrAdds(x, 4, 2);
    ShrAdds(x, 6, 2);
  }

  lemma ShrTwo(x: nat)
    ensures Shr(x, 2) == x / 4
  {
    assert Shr(x, 2) == Shr(x / 2, 1) == Shr(x / 2 / 2, 0);
  }

  /** (x >> n) | (x << (32 - n)), one bit at a time. */
  function Rotr(x: uint32, n: nat): uint32
    decreases n, x
  {
    if n == 0 then x else Rotr(x / 2 + x % 2 * 0x8000_0000, n - 1)
  }

  function Add(x: nat, y: nat): uint32 {
    (x + y) % TWO_32
  }

  lemma AddOfSum(a: nat, b: nat)
    ensures Add(a % TWO_32, b) == (a + b) % TWO_32
  {
    ModIgnoresMultiples(a % TWO_32 + b, a / TWO_32);
  }

  /** A sum modulo 2^32 does not depend on the order of its terms. */
  lemma AddReversed(a: nat, b: nat, c: nat, d: nat)
    ensures Add(Add(Add(a, b), c), d) == Add(Add(Add(d, c), b), a)
  {
    AddOfSum(a + b, c);
    AddOfSum(a + b + c, d);
    AddOfSum(d + c, b);
    AddOfSum(d + c + b, a);
  }

  // ---- what the operators are, in numbers and bit by bit ----

  lemma DivMod(x: nat, m: nat, q: nat, r: nat)
    requires x == m * q + r && r < m
    ensures x / m == q && x % m == r
  {
    assert m * (x / m - q) == r - x % m;
    if x / m > q { AtLeastOnce(m, x / m - q); } else if x / m < q { AtLeastOnce(m, q - x / m); }
  }

  lemma AtLeastOnce(m: nat, k: nat)
    requires k > 0
    ensures m * k >= m
  {
  }

  function Pow2(n: nat): (p: nat)
    ensures p > 0
  {
    if n == 0 then 1 else 2 * Pow2(n - 1)
  }

  lemma {:induction false} PowersMultiply(a: nat, b: nat)
    ensures Pow2(a + b) == Pow2(a) * Pow2(b)
  {
    if a > 0 { PowersMultiply(a - 1, b); }
  }

  lemma Halves(x: nat, m: nat)
    requires m > 0
    ensures x / 2 / m == x / (2 * m) && x % (2 * m) == 2 * (x / 2 % m) + x % 2
  {
    var q, r := x / 2 / m, x / 2 % m;
    assert x / 2 == m * q + r;
    assert 2 * m * q == 2 * (m * q);
    DivMod(x, 2 * m, q, 2 * r + x % 2);
  }

  /** Shifting right divides by a power of two. */
  lemma {:induction false} ShrIs(x: nat, n: nat)
    ensures Shr(x, n) == x / Pow2(n)
    decreases n
  {
    if n > 0 {
      ShrIs(x / 2, n - 1);
      Halves(x, Pow2(n - 1));
    }
  }

  /** Shifting left multiplies by one. */
  lemma {:induction false} ShlIs(x: nat, n: nat)
    ensures Shl(x, n) == x * Pow2(n)
    decreases n
  {
    if n > 0 {
      ShlIs(x, n - 1);
      assert x * (2 * Pow2(n - 1)) == 2 * (x * Pow2(n - 1));
    }
  }

  lemma TopPower()
    ensures Pow2(31) == 0x8000_0000
  {
    assert Pow2(7) == 128;
    PowersMultiply(8, 8);
    PowersMultiply(16, 8);
    PowersMultiply(24, 7);
  }

  /** The bits shifted out come back at the top. */
  lemma {:induction false} RotrIs(x: uint32, n: nat)
    requires n <= 32
    ensures Rotr(x, n) == x / Pow2(n) + x % Pow2(n) * Pow2(32 - n)
    decreases n
  {
    if n > 0 {
      var b, m, p := x % 2, n - 1, Pow2(n - 1);
      var y: uint32 := x / 2 + b * 0x8000_0000;
      RotrIs(y, m);
      RotrTurn(x, y, b, p, Pow2(31 - m), m);
    }
  }

  lemma RotrTurn(x: uint32, y: uint32, b: nat, p: nat, t: nat, m: nat)
    requires m < 32 && b == x % 2 && p == Pow2(m) && t == Pow2(31 - m) && y == x / 2 + b * 0x8000_0000
    ensures y / p + y % p * Pow2(32 - m) == x / Pow2(m + 1) + x % Pow2(m + 1) * t
  {
    TopPower();
    PowersMultiply(m, 31 - m);
    AddMultiple(x / 2, b, p, t);
    Halves(x, p);
    Regroup(x / 2 % p, b, t);
  }

  lemma AddMultiple(h: nat, b: nat, p: nat, t: nat)
    requires p > 0
    ensures (h + b * (p * t)) / p == h / p + b * t && (h + b * (p * t)) % p == h % p
  {
    assert h == p * (h / p) + h % p;
    assert p * (h / p + b * t) == p * (h / p) + b * (p * t);
    DivMod(h + b * (p * t), p, h / p + b * t, h % p);
  }

  lemma Regroup(r: nat, b: nat, t: nat)
    ensures b * t + r * (2 * t) == (2 * r + b) * t
  {
  }

  /** Bit k of a number, counted from the least significant. */
  function Bit(x: nat, k: nat): nat {
    Shr(x, k) % 2
  }

  lemma {:induction false} BitOfXor(x: nat, y: nat, k: nat)
    ensures Bit(Xor(x, y), k) == (Bit(x, k) + Bit(y, k)) % 2
    decreases k
  {
    XorHalves(x, y);
    if k > 0 { BitOfXor(x / 2, y / 2, k - 1); } else { SumOfParities(x, y); }
  }

  lemma XorHalves(x: nat, y: nat)
    ensures Xor(x, y) % 2 == (x + y) % 2 && Xor(x, y) / 2 == Xor(x / 2, y / 2)
  {
    if x != 0 || y != 0 { TwiceAndBit(Xor(x / 2, y / 2), (x + y) % 2); }
  }

  lemma TwiceAndBit(a: nat, b: nat)
    requires b < 2
    ensures (2 * a + b) / 2 == a && (2 * a + b) % 2 == b
  {
  }

  lemma SumOfParities(x: nat, y: nat)
    ensures (x + y) % 2 == (x % 2 + y % 2) % 2
  {
  }

  lemma {:induction false} BitOfAnd(x: nat, y: nat, k: nat)
    ensures Bit(And(x, y), k) == if Bit(x, k) == Bit(y, k) == 1 then 1 else 0
    decreases k
  {
    assert And(x, y) / 2 == And(x / 2, y / 2);
    if k > 0 { BitOfAnd(x / 2, y / 2, k - 1); }
  }

  lemma {:induction false} BitOfComplement(x: nat, n: nat, k: nat)
    requires k < n && x < Pow2(n)
    ensures Bit(Pow2(n) - 1 - x, k) == 1 - Bit(x, k)
    decreases k
  {
    if k > 0 {
      assert (Pow2(n) - 1 - x) / 2 == Pow2(n - 1) - 1 - x / 2;
      BitOfComplement(x / 2, n - 1, k - 1);
    }
  }

  lemma BitOfNot(x: uint32, k: nat)
    requires k < 32
    ensures Bit(Not(x), k) == 1 - Bit(x, k)
  {
    TopPower();
    assert Pow2(32) == 2 * Pow2(31);
    BitOfComplement(x, 32, k);
  }

  lemma BitOfShr(x: nat, n: nat, k: nat)
    ensures Bit(Shr(x, n), k) == Bit(x, k + n)
  {
    ShrAdds(x, n, k);
  }

  lemma {:induction false} ShrOfSum(x: nat, c: nat, m: nat, k: nat)
    requires k <= m
    ensures Shr(x + Shl(c, m), k) == Shr(x, k) + Shl(c, m - k)
    decreases k
  {
    if k > 0 {
      assert (x + Shl(c, m)) / 2 == x / 2 + Shl(c, m - 1);
      ShrOfSum(x / 2, c, m - 1, k - 1);
    }
  }

  lemma LowBitOfTurn(h: nat, b: nat, k: nat)
    requires k < 31
    ensures Bit(h + Shl(b, 31), k) == Bit(h, k)
  {
    ShrOfSum(h, b, 31, k);
    EvenAdded(Shr(h, k), Shl(b, 30 - k));
  }

  lemma TopBitOfTurn(h: nat, b: nat)
    requires h < 0x8000_0000 && b < 2
    ensures Bit(h + Shl(b, 31), 31) == b
  {
    TopPower();
    ShrOfSum(h, b, 31, 31);
    ShrIs(h, 31);
    DivMod(h, 0x8000_0000, 0, h);
  }

  lemma BitOfTurn(x: uint32, k: nat)
    requires k < 32
    ensures Bit(x / 2 + x % 2 * 0x8000_0000, k) == Bit(x, (k + 1) % 32)
  {
    TopPower();
    ShlIs(x % 2, 31);
    if k < 31 { LowBitOfTurn(x / 2, x % 2, k); } else { TopBitOfTurn(x / 2, x % 2); }
  }

  lemma EvenAdded(a: nat, c: nat)
    ensures (a + 2 * c) % 2 == a % 2
  {
  }

  /** Rotating moves bit k + n to bit k, round the word. */
  lemma {:induction false} BitOfRotr(x: uint32, n: nat, k: nat)
    requires k < 32
    ensures Bit(Rotr(x, n), k) == Bit(x, (k + n) % 32)
    decreases n
  {
    if n > 0 {
      BitOfRotr(x / 2 + x % 2 * 0x8000_0000, n - 1, k);
      BitOfTurn(x, (k + n - 1) % 32);
      OneFurther(k + n - 1);
    }
  }

  lemma OneFurther(k: nat)
    ensures (k % 32 + 1) % 32 == (k + 1) % 32
  {
  }

  /** A word is its bits. */
  lemma {:induction false} SameWord(x: nat, y: nat, n: nat)
    requires x < Pow2(n) && y < Pow2(n) && forall k :: 0 <= k < n ==> Bit(x, k) == Bit(y, k)
    ensures x == y
    decreases n
  {
    if n > 0 {
      assert Bit(x, 0) == Bit(y, 0);
      forall k | 0 <= k < n - 1 ensures Bit(x / 2, k) == Bit(y / 2, k) {
        assert Bit(x, k + 1) == Bit(y, k + 1);
      }
      SameWord(x / 2, y / 2, n - 1);
    }
  }
}
