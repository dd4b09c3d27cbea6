/** Little-endian numbers in base 256 whose digits, the limbs, may exceed 255, and what the
    32-limb vectors of src/curve25519.c stand for. */
module Limbs {
  import opened Bits
  import opened Field25519

  const WORD: nat := 0x1_0000_0000

  /** `unsigned int` of the C code. */
  type u32 = x: int | 0 <= x < WORD

  /** What is left of an arithmetic result in an `unsigned int`. */
  function Wrap(x: int): u32 { if 0 <= x < WORD then x else x % WORD }

  /** A difference that wraps around comes back when what it was borrowed from is added. */
  lemma WrapDifference(u: int, x: u32, y: u32)
    requires 0 <= u + x - y < WORD
    ensures Wrap(u + Wrap(x as int - y)) == u + x - y
  {
  }

  ghost function Pow256(n: nat): (r: nat)
    ensures r > 0
  {
    if n == 0 then 1 else 256 * Pow256(n - 1)
  }

  /** The number that the first n limbs stand for. */
  ghost function Value(s: seq<int>, n: nat): int
    requires n <= |s|
  {
    if n == 0 then 0 else Value(s, n - 1) + s[n - 1] * Pow256(n - 1)
  }

  /** The number that a vector of 32 limbs stands for. */
  ghost function Num(s: seq<int>): int
    requires |s| == 32
  {
    Value(s, 32)
  }

  ghost predicate Within(s: seq<int>, low: nat, top: nat) {
    |s| == 32 && (forall i :: 0 <= i < 31 ==> 0 <= s[i] <= low) && 0 <= s[31] <= top
  }

  lemma {:induction false} ValuePrefix(s: seq<int>, t: seq<int>, n: nat)
    requires n <= |s| && n <= |t|
    requires forall i :: 0 <= i < n ==> s[i] == t[i]
    ensures Value(s, n) == Value(t, n)
  {
    if n > 0 { ValuePrefix(s, t, n - 1); }
  }

  lemma {:induction false} ValueLinear(r: seq<int>, s: seq<int>, c: int, t: seq<int>, n: nat)
    requires n <= |r| && n <= |s| && n <= |t|
    requires forall i :: 0 <= i < n ==> r[i] == s[i] + c * t[i]
    ensures Value(r, n) == Value(s, n) + c * Value(t, n)
  {
    if n > 0 {
      ValueLinear(r, s, c, t, n - 1);
      var p := Pow256(n - 1);
      calc {
        r[n - 1] * p;
        (s[n - 1] + c * t[n - 1]) * p;
        s[n - 1] * p + (c * t[n - 1]) * p;
        { assert (c * t[n - 1]) * p == c * (t[n - 1] * p); }
        s[n - 1] * p + c * (t[n - 1] * p);
      }
      assert c * Value(t, n) == c * Value(t, n - 1) + c * (t[n - 1] * p);
    }
  }

  lemma {:induction false} ValueBound(s: seq<int>, low: nat, n: nat)
    requires n <= |s|
    requires forall i :: 0 <= i < n ==> 0 <= s[i] <= low
    ensures 0 <= Value(s, n) && 255 * Value(s, n) <= low * (Pow256(n) - 1)
  {
    if n > 0 {
      ValueBound(s, low, n - 1);
      BoundStep(Value(s, n - 1), s[n - 1], low, Pow256(n - 1));
    }
  }

  lemma BoundStep(v: nat, d: nat, low: nat, p: nat)
    requires 255 * v <= low * (p - 1) && d <= low && p > 0
    ensures 0 <= v + d * p && 255 * (v + d * p) <= low * (256 * p - 1)
  {
    var m := low * p;
    assert 0 <= d * p <= m;
    assert low * (p - 1) == m - low;
    assert low * (256 * p - 1) == 256 * m - low;
  }

  lemma Powers()
    ensures Pow256(31) * 256 == Pow256(32) == 2 * TWO255
    ensures Pow256(31) == 0x100000000000000000000000000000000000000000000000000000000000000
  {
    assert Pow256(8) == 0x1_0000_0000_0000_0000;
    assert Pow256(16) == 0x1_0000_0000_0000_0000_0000_0000_0000_0000;
    assert Pow256(24) == 0x1_0000_0000_0000_0000_0000_0000_0000_0000_0000_0000_0000_0000;
  }

  /** Carried vectors of equal value are equal, limb by limb. */
  lemma {:induction false} Unique(s: seq<int>, t: seq<int>, n: nat)
    requires 0 < n <= |s| && n <= |t|
    requires forall i :: 0 <= i < n - 1 ==> 0 <= s[i] <= 255 && 0 <= t[i] <= 255
    requires Value(s, n) == Value(t, n)
    ensures s[..n] == t[..n]
  {
    if n > 1 {
      TopLimb(s, n); TopLimb(t, n);
      assert Value(s, n - 1) == Value(t, n - 1);
      Unique(s, t, n - 1);
      assert s[..n] == s[..n - 1] + [s[n - 1]];
      assert t[..n] == t[..n - 1] + [t[n - 1]];
    }
  }

  lemma TopLimb(s: seq<int>, n: nat)
    requires 0 < n <= |s|
    requires forall i :: 0 <= i < n - 1 ==> 0 <= s[i] <= 255
    ensures s[n - 1] == Value(s, n) / Pow256(n - 1)
    ensures Value(s, n - 1) == Value(s, n) % Pow256(n - 1)
  {
    ValueBound(s, 255, n - 1);
    Remainder(Value(s, n), Pow256(n - 1), s[n - 1], Value(s, n - 1));
  }

  // ---- Carrying

  /** The carry into limb n when the limbs of t are added up from the bottom, starting with v. */
  ghost function CarryInto(t: seq<int>, v: int, n: nat): int
    requires n <= |t|
  {
    if n == 0 then v else (CarryInto(t, v, n - 1) + t[n - 1]) / 256
  }

  /** The bytes that those n additions leave behind. */
  ghost function Bytes(t: seq<int>, v: int, n: nat): (r: seq<int>)
    requires n <= |t|
    ensures |r| == n
  {
    if n == 0 then [] else Bytes(t, v, n - 1) + [(CarryInto(t, v, n - 1) + t[n - 1]) % 256]
  }

  /** The vector a carry loop over limbs 0 to 30 makes of t and v; the top limb keeps its excess. */
  ghost function Carried(t: seq<int>, v: int): (r: seq<int>)
    requires |t| == 32
    ensures |r| == 32
  {
    Bytes(t, v, 31) + [CarryInto(t, v, 31) + t[31]]
  }

  lemma CarryStart(t: seq<int>, v: int)
    ensures CarryInto(t, v, 0) == v && Bytes(t, v, 0) == []
  {
  }

  lemma CarryAt(t: seq<int>, v: int, n: nat)
    requires n < |t|
    ensures CarryInto(t, v, n + 1) == (CarryInto(t, v, n) + t[n]) / 256
    ensures Bytes(t, v, n + 1) == Bytes(t, v, n) + [(CarryInto(t, v, n) + t[n]) % 256]
  {
  }

  /** Carrying keeps the number. */
  lemma {:induction false} CarryValue(t: seq<int>, v: int, n: nat)
    requires n <= |t|
    ensures Value(Bytes(t, v, n), n) + CarryInto(t, v, n) * Pow256(n) == Value(t, n) + v
    ensures forall i :: 0 <= i < n ==> 0 <= Bytes(t, v, n)[i] <= 255
  {
    if n > 0 {
      CarryValue(t, v, n - 1);
      ValuePrefix(Bytes(t, v, n - 1), Bytes(t, v, n), n - 1);
      CarryStep(CarryInto(t, v, n - 1), t[n - 1], Pow256(n - 1));
    }
  }

  lemma CarryStep(c: int, x: int, p: int)
    ensures (c + x) % 256 * p + (c + x) / 256 * (256 * p) == c * p + x * p
  {
    var w := c + x;
    assert w / 256 * (256 * p) == (w / 256 * 256) * p;
    Distribute(w / 256 * 256, w % 256, p);
    Distribute(c, x, p);
  }

  lemma Distribute(x: int, y: int, p: int)
    ensures (x + y) * p == x * p + y * p
  {
  }

  lemma CarriedNum(t: seq<int>, v: int)
    requires |t| == 32
    ensures Num(Carried(t, v)) == Num(t) + v
    ensures forall i :: 0 <= i < 31 ==> 0 <= Carried(t, v)[i] <= 255
  {
    CarryValue(t, v, 31);
    ValuePrefix(Bytes(t, v, 31), Carried(t, v), 31);
    Distribute(CarryInto(t, v, 31), t[31], Pow256(31));
  }

  // ---- Limb by limb sums and differences

  ghost function Sums(x: seq<int>, y: seq<int>): (t: seq<int>)
    requires |x| == |y| == 32
    ensures |t| == 32
  {
    seq(32, i requires 0 <= i < 32 => x[i] + y[i])
  }

  /** The 32 biased differences of sub: 65280 more than x - y in every limb but the top one. */
  ghost function Differences(x: seq<int>, y: seq<int>): (t: seq<int>)
    requires |x| == |y| == 32
    ensures |t| == 32
  {
    seq(32, i requires 0 <= i < 32 => if i < 31 then x[i] + 65280 - y[i] else x[i] - y[i])
  }

  ghost function Scaled(x: seq<int>): (t: seq<int>)
    requires |x| == 32
    ensures |t| == 32
  {
    seq(32, i requires 0 <= i < 32 => 121665 * x[i])
  }

  lemma SumsNum(x: seq<int>, y: seq<int>)
    requires |x| == |y| == 32
    ensures Num(Sums(x, y)) == Num(x) + Num(y)
  {
    ValueLinear(Sums(x, y), x, 1, y, 32);
  }

  lemma ScaledNum(x: seq<int>)
    requires |x| == 32
    ensures Num(Scaled(x)) == 121665 * Num(x)
  {
    var zero := seq(32, i => 0);
    ValueBound(zero, 0, 32);
    ValueLinear(Scaled(x), zero, 121665, x, 32);
  }

  lemma ScaledAt(x: seq<int>)
    requires Within(x, 511, 511)
    ensures Within(Scaled(x), 0x2000_0000, 0x2000_0000)
    ensures forall i :: 0 <= i < 32 ==> Scaled(x)[i] == 121665 * x[i]
  {
  }

  lemma {:induction false} BiasValue(b: seq<int>, n: nat)
    requires n <= |b|
    requires forall i :: 0 <= i < n ==> b[i] == 65280
    ensures Value(b, n) == 256 * (Pow256(n) - 1)
  {
    if n > 0 { BiasValue(b, n - 1); }
  }

  /** The biases and the 218 that sub starts from come to exactly twice the prime. */
  lemma DifferencesNum(x: seq<int>, y: seq<int>)
    requires |x| == |y| == 32
    ensures Num(Differences(x, y)) + 218 == Num(x) - Num(y) + 2 * P
  {
    var bias := seq(32, i => if i < 31 then 65280 else 0);
    BiasValue(bias, 31);
    Powers();
    var m := seq(32, i requires 0 <= i < 32 => x[i] - y[i]);
    ValueLinear(m, x, -1, y, 32);
    ValueLinear(Differences(x, y), m, 1, bias, 32);
  }

  /** What squeeze does to the number: fold everything above bit 255 back in, times 19. */
  ghost function Fold(v: int): int {
    v % TWO255 + 19 * (v / TWO255)
  }

  lemma FoldSame(v: int)
    ensures Same(Fold(v), v)
  {
    assert v == Fold(v) + (v / TWO255) * P;
    SameByMultiple(v, Fold(v), v / TWO255);
  }

  /** Keeping 7 bits of the top limb cuts a carried vector at bit 255. */
  lemma SplitTop(s: seq<int>, r: seq<int>)
    requires |s| == |r| == 32
    requires forall i :: 0 <= i < 31 ==> 0 <= s[i] <= 255 && r[i] == s[i]
    requires r[31] == s[31] % 128
    ensures Num(r) == Num(s) % TWO255 && s[31] / 128 == Num(s) / TWO255
  {
    Powers();
    ValuePrefix(s, r, 31);
    ValueBound(s, 255, 31);
    Remainder(Num(s), TWO255, s[31] / 128, Num(r));
  }

  /** What the first carry loop of squeeze and of mult121665 leaves of t. */
  lemma FirstPass(t: seq<int>, r: seq<int>)
    requires Within(t, 0x2000_0000, 0x2000_0000)
    requires r == Carried(t, 0)[31 := Carried(t, 0)[31] % 128]
    ensures Within(r, 255, 127) && Num(r) == Num(t) % TWO255
    ensures Carried(t, 0)[31] / 128 == Num(t) / TWO255
    ensures 0 <= Num(t) < 0x80_0000 * TWO255
  {
    CarriedNum(t, 0);
    SplitTop(Carried(t, 0), r);
    NumBound(t);
  }

  /** What the second one makes of that. */
  lemma SecondPass(t: seq<int>, excess: int, v: int)
    requires |t| == 32 && 0 <= v < 0x80_0000 * TWO255
    requires Num(t) == v % TWO255 && excess == 19 * (v / TWO255)
    ensures Num(Carried(t, excess)) == Fold(v) && Within(Carried(t, excess), 255, 128)
  {
    CarriedNum(t, excess);
    FoldedTop(Carried(t, excess), v);
  }

  /** A folded number that was below 2^278 fits a squeezed vector. */
  lemma FoldedTop(r: seq<int>, v: int)
    requires |r| == 32 && (forall i :: 0 <= i < 31 ==> 0 <= r[i] <= 255)
    requires 0 <= v < 0x80_0000 * TWO255 && Num(r) == Fold(v)
    ensures 0 <= r[31] <= 128
  {
    Powers();
    ValueBound(r, 255, 31);
    assert 0 <= v / TWO255 < 0x80_0000;
  }

  /** Limbs up to 2^29 stand for a number below 2^278. */
  lemma NumBound(t: seq<int>)
    requires Within(t, 0x2000_0000, 0x2000_0000)
    ensures 0 <= Num(t) < 0x80_0000 * TWO255
  {
    Powers();
    ValueBound(t, 0x2000_0000, 32);
  }

  // ---- The product of two vectors

  /** The summand for a[j] in column i of the schoolbook product; limb 32 + k counts 38 times as
      limb k because 2^256 is 38 modulo P. */
  function Term(a: seq<int>, b: seq<int>, i: nat, j: nat): int
    requires |a| == |b| == 32 && i < 32 && j < 32
  {
    if j <= i then a[j] * b[i - j] else 38 * a[j] * b[i + 32 - j]
  }

  /** Column i summed over the first n limbs of a. */
  ghost function Column(a: seq<int>, b: seq<int>, i: nat, n: nat): int
    requires |a| == |b| == 32 && i < 32 && n <= 32
  {
    if n == 0 then 0 else Column(a, b, i, n - 1) + Term(a, b, i, n - 1)
  }

  ghost function Columns(a: seq<int>, b: seq<int>, n: nat): (r: seq<int>)
    requires |a| == |b| == 32 && n <= 32
    ensures |r| == 32
  {
    seq(32, i requires 0 <= i < 32 => Column(a, b, i, n))
  }

  lemma {:induction false} ColumnBound(a: seq<int>, b: seq<int>, i: nat, n: nat)
    requires Within(a, 511, 511) && Within(b, 511, 511) && i < 32 && n <= 32
    ensures 0 <= Column(a, b, i, n) <= n * 9922598
  {
    if n > 0 {
      ColumnBound(a, b, i, n - 1);
      TermBound(a, b, i, n - 1);
    }
  }

  lemma TermBound(a: seq<int>, b: seq<int>, i: nat, j: nat)
    requires Within(a, 511, 511) && Within(b, 511, 511) && i < 32 && j < 32
    ensures 0 <= Term(a, b, i, j) <= 9922598
  {
    var x, y := a[j], if j <= i then b[i - j] else b[i + 32 - j];
    assert 0 <= x * y <= 511 * y <= 511 * 511;
    assert 38 * x * y == 38 * (x * y);
  }

  lemma ColumnStep(a: seq<int>, b: seq<int>, i: nat, j: nat)
    requires Within(a, 511, 511) && Within(b, 511, 511) && i < 32 && j < 32
    ensures Column(a, b, i, j + 1) == Column(a, b, i, j) + Term(a, b, i, j)
    ensures 0 <= Column(a, b, i, j) && 0 <= Term(a, b, i, j)
    ensures Column(a, b, i, j + 1) <= 0x2000_0000
  {
    ColumnBound(a, b, i, j);
    TermBound(a, b, i, j);
  }

  /** b moved up by m limbs, what falls off the top coming back 38-fold. */
  ghost function Rotated(b: seq<int>, m: nat): (r: seq<int>)
    requires |b| == 32 && m <= 32
    ensures |r| == 32
  {
    seq(32, i requires 0 <= i < 32 => if m <= i then b[i - m] else 38 * b[i + 32 - m])
  }

  lemma {:induction false} ValueUp(s: seq<int>, t: seq<int>, n: nat)
    requires n < |t| && n <= |s|
    requires forall i :: 0 <= i < n ==> t[i + 1] == s[i]
    ensures Value(t, n + 1) == t[0] + 256 * Value(s, n)
  {
    if n == 0 {
      assert Value(t, 1) == Value(t, 0) + t[0] * Pow256(0);
    } else {
      ValueUp(s, t, n - 1);
      assert t[n] * Pow256(n) == 256 * (s[n - 1] * Pow256(n - 1));
    }
  }

  /** One place up, and 38 times the limb that falls out at the top comes in below. */
  lemma RotateOnce(s: seq<int>, t: seq<int>)
    requires |s| == |t| == 32 && t[0] == 38 * s[31]
    requires forall i :: 0 < i < 32 ==> t[i] == s[i - 1]
    ensures Num(t) == 256 * Num(s) + (-2 * s[31]) * P
  {
    ValueUp(s, t, 31);
    Powers();
    assert Num(s) == Value(s, 31) + s[31] * Pow256(31);
  }

  lemma Pow256Step(n: nat)
    requires n > 0
    ensures Pow256(n) == 256 * Pow256(n - 1)
  {
  }

  lemma RotatedStep(s: int, t: int, k: int, p: nat, n: int)
    requires Same(s, p * n) && t == 256 * s + k * P
    ensures Same(t, (256 * p) * n)
  {
    hide Same;
    SameByMultiple(t, 256 * s, k);
    SameMul(256, 256, s, p * n);
    SameThrough(t, 256 * s, 256 * (p * n));
    assert 256 * (p * n) == (256 * p) * n;
  }

  lemma SameThrough(x: int, y: int, z: int)
    requires Same(x, y) && Same(y, z)
    ensures Same(x, z)
  {
  }

  lemma {:induction false} RotatedValue(b: seq<int>, m: nat)
    requires |b| == 32 && m <= 32
    ensures Same(Num(Rotated(b, m)), Pow256(m) * Num(b))
  {
    if m == 0 {
      assert Rotated(b, 0) == b;
    } else {
      hide Num, Same, Pow256;
      RotatedValue(b, m - 1);
      var s, t := Rotated(b, m - 1), Rotated(b, m);
      assert t[0] == 38 * s[31];
      RotateOnce(s, t);
      Pow256Step(m);
      RotatedStep(Num(s), Num(t), -2 * s[31], Pow256(m - 1), Num(b));
    }
  }

  lemma ColumnsStep(a: seq<int>, b: seq<int>, n: nat)
    requires |a| == |b| == 32 && 0 < n <= 32
    ensures Num(Columns(a, b, n)) == Num(Columns(a, b, n - 1)) + a[n - 1] * Num(Rotated(b, n - 1))
  {
    var r, s, t, c := Columns(a, b, n), Columns(a, b, n - 1), Rotated(b, n - 1), a[n - 1];
    forall i | 0 <= i < 32 ensures r[i] == s[i] + c * t[i] {
      if i < n - 1 {
        var x := b[i + 32 - (n - 1)];
        assert 38 * c * x == c * (38 * x);
      }
    }
    ValueLinear(r, s, c, t, 32);
  }

  /** The columns of the schoolbook product stand for the product, modulo P. */
  lemma {:induction false} ColumnsValue(a: seq<int>, b: seq<int>, n: nat)
    requires |a| == |b| == 32 && n <= 32
    ensures Same(Num(Columns(a, b, n)), Value(a, n) * Num(b))
  {
    if n == 0 {
      ValueBound(Columns(a, b, 0), 0, 32);
    } else {
      ColumnsValue(a, b, n - 1);
      ColumnsStep(a, b, n);
      RotatedValue(b, n - 1);
      Accumulate(Num(Columns(a, b, n - 1)), Value(a, n - 1), Num(b), a[n - 1], Pow256(n - 1),
                 Num(Rotated(b, n - 1)));
    }
  }

  lemma Accumulate(s: int, v: int, b: int, c: int, p: int, t: int)
    requires Same(s, v * b) && Same(t, p * b)
    ensures Same(s + c * t, (v + c * p) * b)
  {
    SameMul(c, c, t, p * b);
    SameSum(s, v * b, c * t, c * (p * b));
    assert c * (p * b) == (c * p) * b;
    assert (v + c * p) * b == v * b + (c * p) * b;
  }

  // ---- The square of a vector

  /** The summands lo, ..., lo + n - 1 of column i of the square. */
  ghost function Span(a: seq<int>, i: nat, lo: nat, n: nat): int
    requires |a| == 32 && i < 32 && lo + n <= 32
  {
    if n == 0 then 0 else Span(a, i, lo, n - 1) + Term(a, a, i, lo + n - 1)
  }

  lemma {:induction false} SpanBound(a: seq<int>, i: nat, lo: nat, n: nat)
    requires Within(a, 511, 511) && i < 32 && lo + n <= 32
    ensures 0 <= Span(a, i, lo, n) <= n * 9922598
  {
    if n > 0 {
      SpanBound(a, i, lo, n - 1);
      TermBound(a, a, i, lo + n - 1);
    }
  }

  lemma SpanStep(a: seq<int>, i: nat, lo: nat, n: nat)
    requires Within(a, 511, 511) && i < 32 && lo + n < 32
    ensures Span(a, i, lo, n + 1) == Span(a, i, lo, n) + Term(a, a, i, lo + n)
    ensures 0 <= Span(a, i, lo, n) && 0 <= Term(a, a, i, lo + n)
    ensures Span(a, i, lo, n + 1) <= 0x2000_0000
  {
    SpanBound(a, i, lo, n);
    TermBound(a, a, i, lo + n);
  }

  lemma {:induction false} ColumnIsSpan(a: seq<int>, i: nat, n: nat)
    requires |a| == 32 && i < 32 && n <= 32
    ensures Column(a, a, i, n) == Span(a, i, 0, n)
  {
    if n > 0 { ColumnIsSpan(a, i, n - 1); }
  }

  lemma {:induction false} SpanSplit(a: seq<int>, i: nat, lo: nat, m: nat, n: nat)
    requires |a| == 32 && i < 32 && lo + m + n <= 32
    ensures Span(a, i, lo, m + n) == Span(a, i, lo, m) + Span(a, i, lo + m, n)
  {
    if n > 0 { SpanSplit(a, i, lo, m, n - 1); }
  }

  /** The summands lo, ..., hi - 1 of column i read the same from both ends. */
  ghost predicate Mirrored(a: seq<int>, i: nat, lo: nat, hi: nat)
    requires |a| == 32 && i < 32 && hi <= 32
  {
    forall k, l :: lo <= k < hi && lo <= l < hi && k + l == lo + hi - 1 ==>
      Term(a, a, i, k) == Term(a, a, i, l)
  }

  /** The last m summands of a span that reads the same from both ends. */
  lemma {:induction false} SpanMirror(a: seq<int>, i: nat, lo: nat, n: nat, m: nat)
    requires |a| == 32 && i < 32 && m <= n && lo + n <= 32
    requires Mirrored(a, i, lo, lo + n)
    ensures Span(a, i, lo + n - m, m) == Span(a, i, lo, m)
  {
    if m > 0 {
      SpanMirror(a, i, lo, n, m - 1);
      SpanSplit(a, i, lo + n - m, 1, m - 1);
      assert Span(a, i, lo + n - m, 1) == Term(a, a, i, lo + n - m);
      assert Term(a, a, i, lo + n - m) == Term(a, a, i, lo + m - 1);
    }
  }

  lemma SpanHalves(a: seq<int>, i: nat, lo: nat, n: nat)
    requires |a| == 32 && i < 32 && lo + n <= 32
    requires Mirrored(a, i, lo, lo + n)
    ensures Span(a, i, lo, n)
         == 2 * Span(a, i, lo, n / 2) + if n % 2 == 1 then Term(a, a, i, lo + n / 2) else 0
  {
    var h := n / 2;
    SpanMirror(a, i, lo, n, h);
    SpanSplit(a, i, lo, n - h, h);
    if n % 2 == 1 { SpanSplit(a, i, lo, h, 1); }
  }

  lemma LowerHalf(a: seq<int>, i: nat)
    requires |a| == 32 && i < 32
    ensures Span(a, i, 0, i + 1)
         == 2 * Span(a, i, 0, (i + 1) / 2) + if i % 2 == 0 then Term(a, a, i, i / 2) else 0
  {
    hide Span, Term, Mirrored;
    SymmetricTerms(a, i);
    SpanHalves(a, i, 0, i + 1);
  }

  lemma UpperHalf(a: seq<int>, i: nat)
    requires |a| == 32 && i < 32
    ensures Span(a, i, i + 1, 31 - i)
         == 2 * Span(a, i, i + 1, (31 - i) / 2) + if i % 2 == 0 then Term(a, a, i, i / 2 + 16) else 0
  {
    hide Span, Term, Mirrored;
    SymmetricTerms(a, i);
    SpanHalves(a, i, i + 1, 31 - i);
  }

  /** The half-work square: each column is twice the summands left of its two centres, plus the
      centres themselves, which only the even columns have. */
  lemma SquareColumn(a: seq<int>, i: nat)
    requires |a| == 32 && i < 32
    ensures Column(a, a, i, 32)
         == 2 * (Span(a, i, 0, (i + 1) / 2) + Span(a, i, i + 1, (31 - i) / 2))
            + if i % 2 == 0 then Term(a, a, i, i / 2) + Term(a, a, i, i / 2 + 16) else 0
  {
    ColumnIsSpan(a, i, 32);
    SpanSplit(a, i, 0, i + 1, 31 - i);
    LowerHalf(a, i);
    UpperHalf(a, i);
  }

  lemma SymmetricTerms(a: seq<int>, i: nat)
    requires |a| == 32 && i < 32
    ensures Mirrored(a, i, 0, i + 1) && Mirrored(a, i, i + 1, 32)
  {
    forall k, l | i < k < 32 && i < l < 32 && k + l == i + 32
      ensures Term(a, a, i, k) == Term(a, a, i, l)
    {
      var x, y := a[k], a[l];
      assert 38 * x * y == 38 * y * x;
    }
  }
}
