/** Arithmetic modulo the prime of Curve25519, and the X25519 function as section 5 of
    RFC 7748 defines it, on integers. Nothing here mentions limbs. */
module Field25519 {
  import opened Bits

  ghost const P: nat := 0x7fffffffffffffffffffffffffffffffffffffffffffffffffffffffffffffed
  ghost const TWO255: nat := 0x8000000000000000000000000000000000000000000000000000000000000000

  /** x and y stand for the same field element. */
  ghost predicate Same(x: int, y: int) {
    x % P == y % P
  }

  lemma SameByMultiple(x: int, y: int, k: int)
    requires x == y + k * P
    ensures Same(x, y)
  {
    Remainder(x, P, y / P + k, y % P);
  }

  lemma SameMul(a: int, a': int, b: int, b': int)
    requires Same(a, a') && Same(b, b')
    ensures Same(a * b, a' * b')
  {
    var i, j := a / P - a' / P, b / P - b' / P;
    assert a == a' + i * P && b == b' + j * P;
    calc {
      a * b;
      (a' + i * P) * (b' + j * P);
      a' * b' + a' * (j * P) + (i * P) * b' + (i * P) * (j * P);
      a' * b' + (a' * j + i * b' + i * (j * P)) * P;
    }
    SameByMultiple(a * b, a' * b', a' * j + i * b' + i * (j * P));
  }

  lemma SameSum(a: int, a': int, b: int, b': int)
    requires Same(a, a') && Same(b, b')
    ensures Same(a + b, a' + b') && Same(a - b, a' - b')
  {
    var i, j := a / P - a' / P, b / P - b' / P;
    SameByMultiple(a + b, a' + b', i + j);
    SameByMultiple(a - b, a' - b', i - j);
  }

  // ---- Field operations and powers

  ghost function Add(x: int, y: int): nat { (x + y) % P }
  ghost function Sub(x: int, y: int): nat { (x - y) % P }
  ghost function Mul(x: int, y: int): nat { (x * y) % P }
  ghost function Sqr(x: int): nat { Mul(x, x) }

  ghost function Pow(x: int, e: nat): nat {
    if e == 0 then 1 else Mul(x, Pow(x, e - 1))
  }

  lemma MulAssoc(x: int, u: int, v: int)
    ensures Mul(x, Mul(u, v)) == Mul(Mul(x, u), v)
  {
    SameMul(x, x, Mul(u, v), u * v);
    SameMul(Mul(x, u), x * u, v, v);
    assert x * (u * v) == (x * u) * v;
  }

  lemma PowStep(x: int, e: nat)
    requires e > 0
    ensures Pow(x, e) == Mul(x, Pow(x, e - 1))
  {
  }

  lemma {:induction false} PowAdd(x: int, d: nat, e: nat)
    ensures Pow(x, d + e) == Mul(Pow(x, d), Pow(x, e))
  {
    if d == 0 {
      PowReduced(x, e);
    } else {
      hide Mul, Pow;
      PowAdd(x, d - 1, e);
      PowStep(x, d);
      PowStep(x, d + e);
      MulAssoc(x, Pow(x, d - 1), Pow(x, e));
    }
  }

  lemma {:induction false} PowReduced(x: int, e: nat)
    ensures 0 <= Pow(x, e) < P
  {
  }

  lemma {:induction false} PowSame(x: int, y: int, e: nat)
    requires Same(x, y)
    ensures Pow(x, e) == Pow(y, e)
  {
    if e > 0 {
      PowSame(x, y, e - 1);
      SameMul(x, y, Pow(x, e - 1), Pow(y, e - 1));
    }
  }

  // ---- From congruent integers to field operations

  lemma SumRep(n: int, a: int, x: int, b: int, y: int)
    requires Same(a, x) && Same(b, y) && n == a + b
    ensures Same(n, Add(x, y))
  {
    SameSum(a, x, b, y);
  }

  lemma DifferenceRep(n: int, a: int, x: int, b: int, y: int)
    requires Same(a, x) && Same(b, y) && n == a - b + 2 * P
    ensures Same(n, Sub(x, y))
  {
    SameSum(a, x, b, y);
    SameByMultiple(n, a - b, 2);
  }

  lemma ProductRep(n: int, a: int, x: int, b: int, y: int)
    requires Same(a, x) && Same(b, y) && Same(n, a * b)
    ensures Same(n, Mul(x, y))
  {
    SameMul(a, x, b, y);
  }

  // ---- X25519

  /** The five variables of the Montgomery ladder of RFC 7748, section 5. */
  datatype Ladder = Ladder(x2: int, z2: int, x3: int, z3: int, swap: bool)

  ghost function CSwap(swap: bool, l: Ladder): Ladder {
    if swap then l.(x2 := l.x3, z2 := l.z3, x3 := l.x2, z3 := l.z2) else l
  }

  /** The ladder with the swap made that RFC 7748 puts off: what the C code keeps between two turns. */
  ghost function Selected(l: Ladder): Ladder { CSwap(l.swap, l) }

  ghost const A24: int := 121665

  /** The body of the loop after the conditional swap. */
  ghost function DoubleAndAdd(l: Ladder, x1: int): Ladder {
    var a := Add(l.x2, l.z2);
    var aa := Sqr(a);
    var b := Sub(l.x2, l.z2);
    var bb := Sqr(b);
    var e := Sub(aa, bb);
    var c := Add(l.x3, l.z3);
    var d := Sub(l.x3, l.z3);
    var da := Mul(d, a);
    var cb := Mul(c, b);
    Ladder(Mul(aa, bb), Mul(e, Add(aa, Mul(A24, e))),
           Sqr(Add(da, cb)), Mul(x1, Sqr(Sub(da, cb))), l.swap)
  }

  ghost predicate Bit(k: nat, t: nat) {
    k / Pow2(t) % 2 == 1
  }

  ghost function LadderStep(l: Ladder, x1: int, kt: bool): Ladder {
    DoubleAndAdd(CSwap(l.swap != kt, l), x1).(swap := kt)
  }

  /** The ladder after it has consumed bits 254 down to t. */
  ghost function LadderFrom(k: nat, u: int, t: nat): Ladder
    requires t <= 255
    decreases 255 - t
  {
    if t == 255 then Ladder(1, 0, u, 1, false)
    else LadderStep(LadderFrom(k, u, t + 1), u, Bit(k, t))
  }

  ghost function X25519(k: nat, u: int): nat {
    var l := LadderFrom(k, u, 0);
    var r := CSwap(l.swap, l);
    Mul(r.x2, Pow(r.z2, P - 2))
  }
}
