/** The bitwise operators of C on unsigned integers of any width. */
module Bits {

  function Pow2(n: nat): (r: nat)
    ensures r > 0
  {
    if n == 0 then 1 else 2 * Pow2(n - 1)
  }

  function BitXor(x: nat, y: nat): nat
    decreases x + y
  {
    if x == 0 && y == 0 then 0
    else (x % 2 + y % 2) % 2 + 2 * BitXor(x / 2, y / 2)
  }

  function BitAnd(x: nat, y: nat): nat
    decreases x
  {
    if x == 0 then 0
    else (if x % 2 == 1 then y % 2 else 0) + 2 * BitAnd(x / 2, y / 2)
  }

  lemma {:induction false} XorZero(x: nat)
    ensures BitXor(x, 0) == x && BitXor(0, x) == x
  {
    if x > 0 { XorZero(x / 2); }
  }

  lemma XorStep(x: nat, y: nat)
    ensures BitXor(x, y) % 2 == (x % 2 + y % 2) % 2 && BitXor(x, y) / 2 == BitXor(x / 2, y / 2)
  {
    if x == 0 && y == 0 {
      assert BitXor(0, 0) == 0;
    } else {
      Halves(BitXor(x, y), (x % 2 + y % 2) % 2, BitXor(x / 2, y / 2));
    }
  }

  lemma Halves(x: nat, low: nat, high: nat)
    requires x == low + 2 * high && low < 2
    ensures x % 2 == low && x / 2 == high
  {
  }

  lemma {:induction false} XorCommutes(x: nat, y: nat)
    ensures BitXor(x, y) == BitXor(y, x)
    decreases x + y
  {
    if x != 0 || y != 0 { XorCommutes(x / 2, y / 2); }
  }

  /** Two of the same cancel. */
  lemma {:induction false} XorCancel(x: nat, y: nat)
    ensures BitXor(x, BitXor(x, y)) == y
    decreases x + y
  {
    if x != 0 || y != 0 {
      XorCancel(x / 2, y / 2);
      hide BitXor;
      XorStep(x, y);
      XorStep(x, BitXor(x, y));
      Parity(x % 2, y % 2);
      FromHalves(BitXor(x, BitXor(x, y)), y);
    }
  }

  lemma Parity(p: nat, q: nat)
    requires p < 2 && q < 2
    ensures (p + (p + q) % 2) % 2 == q
  {
  }

  lemma FromHalves(a: nat, b: nat)
    requires a / 2 == b / 2 && a % 2 == b % 2
    ensures a == b
  {
  }

  /** Bit i of a number. */
  function BitAt(x: nat, i: nat): nat { x / Pow2(i) % 2 }

  lemma BitOfHalf(x: nat, i: nat)
    requires i > 0
    ensures BitAt(x, i) == BitAt(x / 2, i - 1)
  {
    Pow2Step(i);
    DivideTwice(x, 2, Pow2(i - 1));
  }

  lemma LowestBit(x: nat)
    ensures BitAt(x, 0) == x % 2
  {
    assert Pow2(0) == 1;
  }

  /** What the three operators do, bit by bit. */
  lemma {:induction false} Bitwise(x: nat, y: nat, i: nat)
    ensures BitAt(BitXor(x, y), i) == (BitAt(x, i) + BitAt(y, i)) % 2
    ensures BitAt(BitAnd(x, y), i) == BitAt(x, i) * BitAt(y, i)
    ensures BitAt(BitOr(x, y), i) == if BitAt(x, i) == 1 then 1 else BitAt(y, i)
  {
    hide BitXor, BitAnd, BitOr, BitAt;
    XorStep(x, y);
    AndStep(x, y);
    OrStep(x, y);
    if i == 0 {
      LowestBit(x);
      LowestBit(y);
      LowestBit(BitXor(x, y));
      LowestBit(BitAnd(x, y));
      LowestBit(BitOr(x, y));
    } else {
      Bitwise(x / 2, y / 2, i - 1);
      BitOfHalf(x, i);
      BitOfHalf(y, i);
      BitOfHalf(BitXor(x, y), i);
      BitOfHalf(BitAnd(x, y), i);
      BitOfHalf(BitOr(x, y), i);
    }
  }

  lemma {:induction false} XorBound(x: nat, y: nat, n: nat)
    requires x < Pow2(n) && y < Pow2(n)
    ensures BitXor(x, y) < Pow2(n)
  {
    if n > 0 { XorBound(x / 2, y / 2, n - 1); }
  }

  /** Masking with n one-bits is the remainder by 2^n. */
  lemma {:induction false} AndMask(x: nat, n: nat)
    ensures BitAnd(x, Pow2(n) - 1) == x % Pow2(n)
  {
    if n == 0 {
      AndZero(x);
    } else {
      AndMask(x / 2, n - 1);
      AndMaskStep(x, Pow2(n - 1));
    }
  }

  lemma AndMaskStep(x: nat, p: nat)
    requires p > 0 && BitAnd(x / 2, p - 1) == x / 2 % p
    ensures BitAnd(x, 2 * p - 1) == x % (2 * p)
  {
    AndOdd(x, p);
    HalfMod(x, p);
  }

  lemma {:induction false} AndCommutes(x: nat, y: nat)
    ensures BitAnd(x, y) == BitAnd(y, x)
    decreases x + y
  {
    if x == 0 || y == 0 {
      AndZero(x + y);
    } else {
      AndCommutes(x / 2, y / 2);
    }
  }

  lemma AndOdd(x: nat, p: nat)
    requires p > 0
    ensures BitAnd(x, 2 * p - 1) == x % 2 + 2 * BitAnd(x / 2, p - 1)
  {
    if x == 0 { assert BitAnd(0, p - 1) == 0; }
    assert (2 * p - 1) % 2 == 1 && (2 * p - 1) / 2 == p - 1;
  }

  lemma {:induction false} AndZero(x: nat)
    ensures BitAnd(x, 0) == 0
  {
    if x > 0 { AndZero(x / 2); }
  }

  /** The remainder by 2m from the remainder of the half by m. */
  lemma HalfMod(x: nat, m: nat)
    requires m > 0
    ensures x % (2 * m) == 2 * (x / 2 % m) + x % 2 && x / (2 * m) == x / 2 / m
  {
    var h := x / 2;
    assert x == 2 * (m * (h / m) + h % m) + x % 2;
    Remainder(x, 2 * m, h / m, 2 * (h % m) + x % 2);
  }

  lemma Remainder(x: int, m: int, q: int, r: int)
    requires 0 <= r < m && x == m * q + r
    ensures x % m == r && x / m == q
  {
    var d := x / m - q;
    assert x == m * (x / m) + x % m;
    assert m * d == r - x % m;
    assert d >= 1 ==> m * d >= m;
    assert d <= -1 ==> m * d <= -m;
  }

  lemma {:induction false} Pow2Add(m: nat, n: nat)
    ensures Pow2(m + n) == Pow2(m) * Pow2(n)
  {
    if m > 0 {
      Pow2Add(m - 1, n);
      DoubleProduct(Pow2(m - 1), Pow2(n));
    }
  }

  lemma DoubleProduct(x: nat, y: nat)
    ensures 2 * (x * y) == (2 * x) * y
  {
  }

  lemma DivideTwice(x: nat, a: nat, b: nat)
    requires a > 0 && b > 0 && a * b > 0
    ensures x / (a * b) == x / a / b
  {
    var q, r := x / a / b, x / a % b;
    assert x == a * (b * q + r) + x % a;
    assert a * (b * q + r) == (a * b) * q + a * r;
    assert a * r <= a * (b - 1);
    Remainder(x, a * b, q, a * r + x % a);
  }

  lemma Pow2Step(n: nat)
    requires n > 0
    ensures Pow2(n) == 2 * Pow2(n - 1)
  {
  }

  lemma XorByHalves(u: nat, v: nat, r: nat)
    requires u % 2 == r % 2 && v % 2 == 0 && BitXor(u / 2, v / 2) == r / 2
    ensures BitXor(u, v) == r
  {
    hide BitXor;
    XorStep(u, v);
    FromHalves(BitXor(u, v), r);
  }

  lemma XorDoubled(u: nat, b: nat, v: nat, r: nat)
    requires BitXor(u + b / 2, v) == r + b / 2
    ensures BitXor(2 * u + b, 2 * v) == 2 * r + b
  {
    hide BitXor;
    XorByHalves(2 * u + b, 2 * v, 2 * r + b);
  }

  /** Exclusive or, on numbers with n low bits of which the second has none set. */
  lemma {:induction false} XorHigh(n: nat, a: nat, b: nat, c: nat)
    requires b < Pow2(n)
    ensures BitXor(Pow2(n) * a + b, Pow2(n) * c) == Pow2(n) * BitXor(a, c) + b
  {
    if n == 0 {
      assert Pow2(0) == 1;
    } else {
      hide BitXor, Pow2;
      var p := Pow2(n - 1);
      Pow2Step(n);
      XorHigh(n - 1, a, b / 2, c);
      PairOf(Pow2(n), p, a);
      PairOf(Pow2(n), p, c);
      PairOf(Pow2(n), p, BitXor(a, c));
      XorDoubled(p * a, b, p * c, p * BitXor(a, c));
    }
  }

  function BitOr(x: nat, y: nat): nat
    decreases x + y
  {
    if x == 0 && y == 0 then 0
    else (if x % 2 == 1 then 1 else y % 2) + 2 * BitOr(x / 2, y / 2)
  }

  lemma OrSum(u: nat, b: nat)
    requires BitOr(u, b / 2) == u + b / 2
    ensures BitOr(2 * u, b) == 2 * u + b
  {
    hide BitOr;
    OrByHalves(2 * u, b, 2 * u + b);
  }

  /** Where no bit is set twice, or is plus. */
  lemma {:induction false} OrApart(n: nat, a: nat, b: nat)
    requires b < Pow2(n)
    ensures BitOr(Pow2(n) * a, b) == Pow2(n) * a + b
  {
    if n == 0 {
      assert Pow2(0) == 1;
      OrZero(a);
    } else {
      hide BitOr, Pow2;
      var p := Pow2(n - 1);
      Pow2Step(n);
      OrApart(n - 1, a, b / 2);
      PairOf(Pow2(n), p, a);
      OrSum(p * a, b);
    }
  }

  lemma {:induction false} OrZero(a: nat)
    ensures BitOr(a, 0) == a
  {
    if a > 0 { OrZero(a / 2); }
  }

  lemma {:induction false} OrShifted(n: nat, a: nat, b: nat)
    ensures BitOr(Pow2(n) * a, Pow2(n) * b) == Pow2(n) * BitOr(a, b)
  {
    if n == 0 {
      assert Pow2(0) == 1;
    } else {
      hide BitOr, Pow2;
      var p := Pow2(n - 1);
      Pow2Step(n);
      OrShifted(n - 1, a, b);
      PairOf(Pow2(n), p, a);
      PairOf(Pow2(n), p, b);
      PairOf(Pow2(n), p, BitOr(a, b));
      OrDoubled(p * a, p * b, p * BitOr(a, b));
    }
  }

  lemma PairOf(q: nat, p: nat, a: nat)
    requires q == 2 * p
    ensures q * a == 2 * (p * a) && p * a >= 0
  {
  }

  lemma OrDoubled(u: nat, v: nat, r: nat)
    requires BitOr(u, v) == r
    ensures BitOr(2 * u, 2 * v) == 2 * r
  {
    hide BitOr;
    OrByHalves(2 * u, 2 * v, 2 * r);
  }

  lemma OrOne(a: nat)
    ensures BitOr(a, 1) == a + 1 - a % 2
  {
    hide BitOr;
    OrStep(a, 1);
    OrZero(a / 2);
  }

  lemma {:induction false} OrBound(n: nat, x: nat, y: nat)
    requires x < Pow2(n) && y < Pow2(n)
    ensures BitOr(x, y) < Pow2(n)
  {
    if n > 0 { OrBound(n - 1, x / 2, y / 2); }
  }

  /** Or with n one-bits. */
  lemma {:induction false} OrOnes(n: nat, y: nat)
    requires y < Pow2(n)
    ensures BitOr(Pow2(n) - 1, y) == Pow2(n) - 1
  {
    if n == 0 {
      assert Pow2(0) == 1;
    } else {
      hide BitOr, Pow2;
      Pow2Step(n);
      OrOnes(n - 1, y / 2);
      OrStep(Pow2(n) - 1, y);
    }
  }

  lemma OrStep(x: nat, y: nat)
    ensures BitOr(x, y) % 2 == (if x % 2 == 1 then 1 else y % 2) && BitOr(x, y) / 2 == BitOr(x / 2, y / 2)
  {
    if x == 0 && y == 0 {
      assert BitOr(0, 0) == 0;
    } else {
      Halves(BitOr(x, y), if x % 2 == 1 then 1 else y % 2, BitOr(x / 2, y / 2));
    }
  }

  lemma OrByHalves(u: nat, v: nat, r: nat)
    requires u % 2 == 0 && v % 2 == r % 2 && BitOr(u / 2, v / 2) == r / 2
    ensures BitOr(u, v) == r
  {
    hide BitOr;
    OrStep(u, v);
    FromHalves(BitOr(u, v), r);
  }

  /** A mask and its complement take a number of n bits apart. */
  lemma {:induction false} AndComplement(n: nat, x: nat, y: nat)
    requires x < Pow2(n) && y < Pow2(n)
    ensures BitAnd(x, y) + BitAnd(x, Pow2(n) - 1 - y) == x
  {
    if n > 0 {
      hide BitAnd, Pow2;
      Pow2Step(n);
      AndComplement(n - 1, x / 2, y / 2);
      AndStep(x, y);
      AndStep(x, Pow2(n) - 1 - y);
    }
  }

  lemma AndStep(x: nat, y: nat)
    ensures BitAnd(x, y) % 2 == (if x % 2 == 1 then y % 2 else 0) && BitAnd(x, y) / 2 == BitAnd(x / 2, y / 2)
  {
    if x == 0 {
      assert BitAnd(0, y) == 0 && BitAnd(0, y / 2) == 0;
    } else {
      Halves(BitAnd(x, y), if x % 2 == 1 then y % 2 else 0, BitAnd(x / 2, y / 2));
    }
  }
}
