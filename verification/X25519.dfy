/** The exported half of src/curve25519.c: the ladder, the inversion and curve25519. An array of
    two or three 32-limb vectors in C is two or three arrays here. */
module X25519 {
  import opened Bits
  import opened Field25519
  import opened Montgomery
  import opened Limbs
  import opened Curve25519

  /** The squeezed vector s stands for the field element v. */
  ghost predicate Rep(s: seq<int>, v: int) {
    Squeezed(s) && Same(Num(s), v)
  }

  predicate Distinct(a: array<u32>, b: array<u32>, c: array<u32>, d: array<u32>) {
    a != b && a != c && a != d && b != c && b != d && c != d
  }

  predicate Vectors(a: array<u32>, b: array<u32>, c: array<u32>, d: array<u32>) {
    a.Length == b.Length == c.Length == d.Length == 32
  }

  /** A sum or a difference stands for the field element v. */
  ghost predicate LooseRep(s: seq<int>, v: int) {
    Loose(s) && Same(Num(s), v)
  }

  /** One of the three add and sub pairs of the loop body. */
  method sumAndDifference(x: array<u32>, z: array<u32>, ghost vx: int, ghost vz: int)
    returns (s: array<u32>, d: array<u32>)
    requires x.Length == z.Length == 32 && Rep(x[..], vx) && Rep(z[..], vz)
    ensures fresh(s) && fresh(d) && s != d && s.Length == d.Length == 32
    ensures LooseRep(s[..], Add(vx, vz)) && LooseRep(d[..], Sub(vx, vz))
  {
    s, d := new u32[32], new u32[32];
    add(s, x, z);
    sub(d, x, z);
    SumRep(Num(s[..]), Num(x[..]), vx, Num(z[..]), vz);
    DifferenceRep(Num(d[..]), Num(x[..]), vx, Num(z[..]), vz);
  }

  /** mult and square into a new vector. */
  method product(a: array<u32>, b: array<u32>, ghost x: int, ghost y: int) returns (out: array<u32>)
    requires a.Length == b.Length == 32 && LooseRep(a[..], x) && LooseRep(b[..], y)
    ensures fresh(out) && out.Length == 32 && Rep(out[..], Mul(x, y))
  {
    out := new u32[32];
    mult(out, a, b);
    ProductRep(Num(out[..]), Num(a[..]), x, Num(b[..]), y);
  }

  method squared(a: array<u32>, ghost x: int) returns (out: array<u32>)
    requires a.Length == 32 && LooseRep(a[..], x)
    ensures fresh(out) && out.Length == 32 && Rep(out[..], Sqr(x))
  {
    out := new u32[32];
    square(out, a);
    ProductRep(Num(out[..]), Num(a[..]), x, Num(a[..]), x);
  }

  /** The arithmetic of one turn of the loop of mainloop, between the two selections. */
  method doubleAndAdd(x2: array<u32>, z2: array<u32>, x3: array<u32>, z3: array<u32>,
                      work: array<u32>, ghost l: Ladder, ghost x1: int)
    returns (xn: array<u32>, zn: array<u32>, xn1: array<u32>, zn1: array<u32>)
    requires Vectors(x2, z2, x3, z3) && work.Length == 32
    requires Rep(x2[..], l.x2) && Rep(z2[..], l.z2) && Rep(x3[..], l.x3) && Rep(z3[..], l.z3)
    requires Rep(work[..], x1)
    ensures fresh(xn) && fresh(zn) && fresh(xn1) && fresh(zn1)
    ensures Distinct(xn, zn, xn1, zn1) && Vectors(xn, zn, xn1, zn1)
    ensures var m := DoubleAndAdd(l, x1);
            Rep(xn[..], m.x2) && Rep(zn[..], m.z2) && Rep(xn1[..], m.x3) && Rep(zn1[..], m.z3)
  {
    ghost var va, vb, vc, vd := Add(l.x2, l.z2), Sub(l.x2, l.z2), Add(l.x3, l.z3), Sub(l.x3, l.z3);
    var a0, a0h := sumAndDifference(x2, z2, l.x2, l.z2);
    var a1, a1h := sumAndDifference(x3, z3, l.x3, l.z3);
    var b0 := squared(a0, va);
    var b0h := squared(a0h, vb);
    var b1 := product(a1, a0h, vc, vb);
    var b1h := product(a1h, a0, vd, va);
    xn1, zn1 := addition(b1, b1h, work, Mul(vc, vb), Mul(vd, va), x1);
    xn, zn := doubling(b0, b0h, Sqr(va), Sqr(vb));
  }

  method doubling(b0: array<u32>, b0h: array<u32>, ghost aa: int, ghost bb: int)
    returns (xn: array<u32>, zn: array<u32>)
    requires b0.Length == b0h.Length == 32 && Rep(b0[..], aa) && Rep(b0h[..], bb)
    ensures fresh(xn) && fresh(zn) && xn != zn && xn.Length == zn.Length == 32
    ensures Rep(xn[..], Mul(aa, bb))
    ensures Rep(zn[..], Mul(Sub(aa, bb), Add(aa, Mul(A24, Sub(aa, bb)))))
  {
    ghost var e := Sub(aa, bb);
    var s, t, u := new u32[32], new u32[32], new u32[32];
    sub(s, b0, b0h);
    DifferenceRep(Num(s[..]), Num(b0[..]), aa, Num(b0h[..]), bb);
    mult121665(t, s);
    FoldSame(121665 * Num(s[..]));
    ProductRep(Num(t[..]), 121665, A24, Num(s[..]), e);
    add(u, t, b0);
    SumRep(Num(u[..]), Num(b0[..]), aa, Num(t[..]), Mul(A24, e));
    xn := product(b0, b0h, aa, bb);
    zn := product(s, u, e, Add(aa, Mul(A24, e)));
  }

  method addition(b1: array<u32>, b1h: array<u32>, work: array<u32>, ghost cb: int, ghost da: int,
                  ghost x1: int)
    returns (xn1: array<u32>, zn1: array<u32>)
    requires b1.Length == b1h.Length == work.Length == 32
    requires Rep(b1[..], cb) && Rep(b1h[..], da) && Rep(work[..], x1)
    ensures fresh(xn1) && fresh(zn1) && xn1 != zn1 && xn1.Length == zn1.Length == 32
    ensures Rep(xn1[..], Sqr(Add(da, cb))) && Rep(zn1[..], Mul(x1, Sqr(Sub(da, cb))))
  {
    var c1, c1h := sumAndDifference(b1, b1h, cb, da);
    var r := squared(c1h, Sub(cb, da));
    xn1 := squared(c1, Add(cb, da));
    zn1 := product(r, work, Sqr(Sub(cb, da)), x1);
    SquareOfNegative(cb, da);
    assert Sqr(Sub(cb, da)) * x1 == x1 * Sqr(Sub(cb, da));
  }

  /** C subtracts the cross products the other way round; the square does not notice. */
  lemma SquareOfNegative(x: int, y: int)
    ensures Sqr(Sub(x, y)) == Sqr(Sub(y, x))
  {
    SameMul(Sub(x, y), x - y, Sub(x, y), x - y);
    SameMul(Sub(y, x), y - x, Sub(y, x), y - x);
    assert (x - y) * (x - y) == (y - x) * (y - x);
  }

  /** The four vectors xzm and xzm1 hold the ladder variables. */
  ghost predicate Holds(xm: seq<int>, zm: seq<int>, xm1: seq<int>, zm1: seq<int>, l: Ladder) {
    Rep(xm, l.x2) && Rep(zm, l.z2) && Rep(xm1, l.x3) && Rep(zm1, l.z3)
  }

  /** One turn of mainloop, with its two selections, is one step of the RFC ladder. */
  method turn(xm: array<u32>, zm: array<u32>, xm1: array<u32>, zm1: array<u32>, work: array<u32>,
              b: u32, ghost l: Ladder, ghost x1: int)
    requires Vectors(xm, zm, xm1, zm1) && Distinct(xm, zm, xm1, zm1) && work.Length == 32 && b <= 1
    requires work != xm && work != zm && work != xm1 && work != zm1
    requires Holds(xm[..], zm[..], xm1[..], zm1[..], Selected(l)) && Rep(work[..], x1)
    modifies xm, zm, xm1, zm1
    ensures Holds(xm[..], zm[..], xm1[..], zm1[..], Selected(LadderStep(l, x1, b == 1)))
  {
    var xmb, zmb, xm1b, zm1b := new u32[32], new u32[32], new u32[32], new u32[32];
    crv_select(xmb, xm1b, xm, xm1, b);
    crv_select(zmb, zm1b, zm, zm1, b);
    var xn, zn, xn1, zn1 := doubleAndAdd(xmb, zmb, xm1b, zm1b, work, CSwap(l.swap != (b == 1), l), x1);
    crv_select(xm, xm1, xn, xn1, b);
    crv_select(zm, zm1, zn, zn1, b);
  }

  /** Bit t of a little-endian byte string is found in byte t / 8. */
  lemma BitOfByte(e: seq<int>, t: nat)
    requires |e| == 32 && t < 256 && forall i :: 0 <= i < 32 ==> 0 <= e[i] < 256
    ensures Num(e) >= 0
    ensures Bit(Num(e), t) == (e[t / 8] / Pow2(t % 8) % 2 == 1)
  {
    ValueBound(e, 255, 32);
    var q, r := t / 8, t % 8;
    var h := ByteAt(e, q);
    PowersAgree(q);
    Pow2Add(8 * q, r);
    DivideTwice(Num(e), Pow2(8 * q), Pow2(r));
    LowBit(e[q], h, r);
  }

  lemma ByteAt(e: seq<int>, q: nat) returns (h: nat)
    requires |e| == 32 && q < 32 && forall i :: 0 <= i < 32 ==> 0 <= e[i] < 256
    ensures Num(e) / Pow256(q) == e[q] + 256 * h
  {
    h := HighPart(e, q, 32);
    ValueBound(e, 255, q);
    Quotient(Num(e), Pow256(q), e[q], h, Value(e, q));
  }

  lemma Quotient(x: int, p: nat, d: nat, h: nat, r: nat)
    requires r < p && x == r + d * p + (256 * p) * h
    ensures x / p == d + 256 * h
  {
    assert (256 * p) * h == (256 * h) * p;
    Distribute(d, 256 * h, p);
    Remainder(x, p, d + 256 * h, r);
  }

  lemma {:induction false} HighPart(e: seq<int>, q: nat, n: nat) returns (h: nat)
    requires q < n <= |e| && forall i :: 0 <= i < n ==> 0 <= e[i] < 256
    ensures Value(e, n) == Value(e, q + 1) + Pow256(q + 1) * h
  {
    if n == q + 1 {
      h := 0;
    } else {
      var g := HighPart(e, q, n - 1);
      var p := HighPower(q, n - 1);
      h := g + e[n - 1] * p;
      assert e[n - 1] * (Pow256(q + 1) * p) == Pow256(q + 1) * (e[n - 1] * p);
    }
  }

  lemma {:induction false} HighPower(q: nat, n: nat) returns (p: nat)
    requires q < n
    ensures Pow256(n) == Pow256(q + 1) * p
  {
    if n == q + 1 {
      p := 1;
    } else {
      var p' := HighPower(q, n - 1);
      p := 256 * p';
      assert 256 * (Pow256(q + 1) * p') == Pow256(q + 1) * (256 * p');
    }
  }

  lemma {:induction false} PowersAgree(q: nat)
    ensures Pow2(8 * q) == Pow256(q)
  {
    if q > 0 {
      PowersAgree(q - 1);
      Pow2Add(8, 8 * (q - 1));
      assert Pow2(8) == 256;
    }
  }

  lemma LowBit(x: nat, h: nat, r: nat)
    requires r < 8
    ensures (x + 256 * h) / Pow2(r) % 2 == x / Pow2(r) % 2
  {
    Pow2Add(r, 7 - r);
    assert Pow2(7) == 128;
    EvenMultiple(x, h, Pow2(r), Pow2(7 - r));
  }

  lemma EvenMultiple(x: nat, h: nat, p: nat, g: nat)
    requires p > 0 && p * g == 128
    ensures (x + 256 * h) / p % 2 == x / p % 2
  {
    calc {
      (2 * (g * h)) * p;
      2 * ((p * g) * h);
      256 * h;
    }
    AddMultiple(x, 2 * (g * h), p);
  }

  lemma AddMultiple(x: nat, m: nat, p: nat)
    requires p > 0
    ensures (x + m * p) / p == x / p + m
  {
    Remainder(x + m * p, p, x / p + m, x % p);
  }

  method mainloop(work: array<u32>, workh: array<u32>, e: array<byte>, ghost u: int)
    requires work.Length == workh.Length == e.Length == 32 && work != workh
    requires Rep(work[..], u)
    modifies work, workh
    ensures Num(e[..]) >= 0
    ensures var r := Selected(LadderFrom(Num(e[..]), u, 0));
            Rep(work[..], r.x2) && Rep(workh[..], r.z2)
  {
    BitOfByte(e[..], 0);
    ghost var k: nat := Num(e[..]);
    var xm, zm, xm1, zm1 := start(work, u);
    climb(xm, zm, xm1, zm1, work, e, k, u);
    ghost var l := Selected(LadderFrom(k, u, 0));
    Outcome(xm[..], zm[..], xm1[..], zm1[..], l);
    hide Num, Rep, Holds, LadderFrom;
    copy(work, xm);
    copy(workh, zm);
  }

  /** The vectors before the first turn. */
  method start(work: array<u32>, ghost u: int)
    returns (xm: array<u32>, zm: array<u32>, xm1: array<u32>, zm1: array<u32>)
    requires work.Length == 32 && Rep(work[..], u)
    ensures fresh(xm) && fresh(zm) && fresh(xm1) && fresh(zm1)
    ensures Vectors(xm, zm, xm1, zm1) && Distinct(xm, zm, xm1, zm1)
    ensures Holds(xm[..], zm[..], xm1[..], zm1[..], Ladder(1, 0, u, 1, false))
  {
    xm, zm, xm1, zm1 := new u32[32], new u32[32], new u32[32], new u32[32];
    copy(xm1, work);
    unit(xm, 1);
    unit(zm, 0);
    unit(zm1, 1);
  }

  /** The 255 turns. */
  method climb(xm: array<u32>, zm: array<u32>, xm1: array<u32>, zm1: array<u32>, work: array<u32>,
               e: array<byte>, ghost k: nat, ghost u: int)
    requires Vectors(xm, zm, xm1, zm1) && Distinct(xm, zm, xm1, zm1)
    requires work.Length == e.Length == 32 && k == Num(e[..])
    requires work != xm && work != zm && work != xm1 && work != zm1
    requires Holds(xm[..], zm[..], xm1[..], zm1[..], Ladder(1, 0, u, 1, false)) && Rep(work[..], u)
    modifies xm, zm, xm1, zm1
    ensures Holds(xm[..], zm[..], xm1[..], zm1[..], Selected(LadderFrom(k, u, 0)))
  {
    ghost var bytes := e[..];
    assert Selected(LadderFrom(k, u, 255)) == Ladder(1, 0, u, 1, false);
    hide Num, Rep, Selected, LadderStep, Holds, Bit;
    var pos := 254;
    while pos >= 0
      invariant -1 <= pos <= 254 && e[..] == bytes
      invariant Rep(work[..], u)
      invariant Holds(xm[..], zm[..], xm1[..], zm1[..], Selected(LadderFrom(k, u, pos + 1)))
    {
      var b: u32 := e[pos / 8] / Pow2(pos % 8) % 2;
      BitOfByte(bytes, pos);
      turn(xm, zm, xm1, zm1, work, b, LadderFrom(k, u, pos + 1), u);
      pos := pos - 1;
    }
  }

  lemma Outcome(xm: seq<int>, zm: seq<int>, xm1: seq<int>, zm1: seq<int>, l: Ladder)
    requires Holds(xm, zm, xm1, zm1, l)
    ensures Rep(xm, l.x2) && Rep(zm, l.z2)
  {
  }

  method copy(out: array<u32>, a: array<u32>)
    requires out.Length == a.Length == 32 && out != a
    modifies out
    ensures out[..] == a[..]
  {
    for j := 0 to 32
      invariant out[..j] == a[..j]
    {
      out[j] := a[j];
    }
    assert out[..] == out[..32] == a[..32] == a[..];
  }

  /** The vectors 0 and 1 that the ladder starts from. */
  method unit(out: array<u32>, x: u32)
    requires out.Length == 32 && x <= 1
    modifies out
    ensures Rep(out[..], x)
  {
    out[0] := x;
    for j := 1 to 32
      invariant out[0] == x && forall i :: 0 < i < j ==> out[i] == 0
    {
      out[j] := 0;
    }
    UnitNum(out[..], x);
  }

  lemma UnitNum(s: seq<int>, x: int)
    requires |s| == 32 && s[0] == x && (forall i :: 0 < i < 32 ==> s[i] == 0)
    ensures Num(s) == x
  {
    var zero := seq(31, i => 0);
    ValueBound(zero, 0, 31);
    ValueUp(zero, s, 31);
  }

  // ---- recip

  method powSquare(out: array<u32>, a: array<u32>, ghost v: int, ghost e: nat)
    requires out.Length == a.Length == 32 && out != a && Rep(a[..], Pow(v, e))
    modifies out
    ensures Rep(out[..], Pow(v, 2 * e))
  {
    square(out, a);
    ProductRep(Num(out[..]), Num(a[..]), Pow(v, e), Num(a[..]), Pow(v, e));
    PowAdd(v, e, e);
  }

  method powMult(out: array<u32>, a: array<u32>, b: array<u32>, ghost v: int, ghost d: nat, ghost e: nat)
    requires out.Length == a.Length == b.Length == 32 && out != a && out != b
    requires Rep(a[..], Pow(v, d)) && Rep(b[..], Pow(v, e))
    modifies out
    ensures Rep(out[..], Pow(v, d + e))
  {
    mult(out, a, b);
    ProductRep(Num(out[..]), Num(a[..]), Pow(v, d), Num(b[..]), Pow(v, e));
    PowAdd(v, d, e);
  }

  /** An exponent after n squarings. */
  ghost function Doubled(e: nat, n: nat): nat {
    if n == 0 then e else 2 * Doubled(e, n - 1)
  }

  lemma {:induction false} DoubledValue(e: nat, n: nat)
    ensures Doubled(e, n) == e * Pow2(n)
  {
    if n > 0 {
      DoubledValue(e, n - 1);
      assert 2 * (e * Pow2(n - 1)) == e * (2 * Pow2(n - 1));
    }
  }

  /** The n squarings, two of them before the loop, that recip does six times; the result is in
      second, where x may have been. */
  method squarings(first: array<u32>, second: array<u32>, x: array<u32>, n: nat, ghost v: int, ghost e: nat)
    requires first.Length == second.Length == x.Length == 32 && first != second && first != x
    requires n >= 2 && n % 2 == 0 && Rep(x[..], Pow(v, e))
    modifies first, second
    ensures Rep(second[..], Pow(v, Doubled(e, n)))
  {
    hide Rep, Pow;
    powSquare(first, x, v, e);
    powSquare(second, first, v, 2 * e);
    var i := 2;
    assert Doubled(e, 1) == 2 * Doubled(e, 0) && Doubled(e, 1 + 1) == 2 * Doubled(e, 1);
    while i < n
      invariant 2 <= i <= n && i % 2 == 0
      invariant Rep(second[..], Pow(v, Doubled(e, i)))
    {
      powSquare(first, second, v, Doubled(e, i));
      powSquare(second, first, v, Doubled(e, i + 1));
      i := i + 2;
    }
  }

  /** n one-bits after m one-bits: what squaring n times and multiplying makes of the exponent. */
  lemma Ones(m: nat, n: nat)
    ensures Doubled(Pow2(m) - 1, n) + (Pow2(n) - 1) == Pow2(m + n) - 1
  {
    DoubledValue(Pow2(m) - 1, n);
    Pow2Add(m, n);
    Distribute(Pow2(m), -1, Pow2(n));
  }

  /** The exponent of the inversion. */
  lemma RecipExponent()
    ensures Doubled(Pow2(250) - 1, 5) + 11 == P - 2
  {
    var a := Pow2(250) - 1;
    assert Doubled(a, 5) == 32 * a by { DoubledValue(a, 5); assert Pow2(5) == 32; }
    Powers256();
  }

  lemma Powers256()
    ensures Pow2(250) == 0x400000000000000000000000000000000000000000000000000000000000000
  {
    Powers();
    PowersAgree(31);
    Pow2Add(248, 2);
    assert Pow2(2) == 4;
  }

  /** s holds v to the power 2^m - 1. */
  ghost predicate OnesRep(s: seq<int>, v: int, m: nat) {
    Rep(s, Pow(v, Pow2(m) - 1))
  }

  /** One of the six long stages of recip: n squarings of x, then a multiplication by y. */
  method stage(out: array<u32>, first: array<u32>, second: array<u32>, x: array<u32>, y: array<u32>,
               n: nat, ghost v: int, ghost m: nat)
    requires first.Length == second.Length == x.Length == y.Length == out.Length == 32
    requires first != second && first != x && y != first && y != second && out != second && out != y
    requires n >= 2 && n % 2 == 0 && OnesRep(x[..], v, m) && OnesRep(y[..], v, n)
    modifies first, second, out
    ensures OnesRep(out[..], v, m + n)
  {
    squarings(first, second, x, n, v, Pow2(m) - 1);
    powMult(out, second, y, v, Doubled(Pow2(m) - 1, n), Pow2(n) - 1);
    Ones(m, n);
  }

  /** z to the power p - 2; out may be z. */
  method recip(out: array<u32>, z: array<u32>, ghost v: int)
    requires out.Length == z.Length == 32 && Rep(z[..], v)
    modifies out
    ensures Rep(out[..], Pow(v, P - 2))
  {
    hide Rep, Pow, OnesRep;
    var z11, z2_5_0 := smallPowers(z, v);
    var t0, t1 := new u32[32], new u32[32];
    var z2_10_0 := power10(z2_5_0, v);
    var z2_50_0, z2_100_0 := new u32[32], new u32[32];
    power50(z2_50_0, t0, t1, z2_10_0, v);
    stage(z2_100_0, t0, t1, z2_50_0, z2_50_0, 50, v, 50);
    stage(t1, t1, t0, z2_100_0, z2_100_0, 100, v, 100);
    stage(t0, t0, t1, t1, z2_50_0, 50, v, 200);
    lastPower(out, t0, t1, z11, v);
  }

  lemma FirstPower(s: seq<int>, v: int)
    requires Rep(s, v)
    ensures Rep(s, Pow(v, 1))
  {
    assert Pow(v, 1) == Mul(v, Pow(v, 0));
  }

  /** recip up to z2_5_0. */
  method smallPowers(z: array<u32>, ghost v: int) returns (z11: array<u32>, z2_5_0: array<u32>)
    requires z.Length == 32 && Rep(z[..], v)
    ensures fresh(z11) && fresh(z2_5_0) && z11 != z2_5_0 && z11.Length == z2_5_0.Length == 32
    ensures Rep(z11[..], Pow(v, 11)) && OnesRep(z2_5_0[..], v, 5)
  {
    FirstPower(z[..], v);
    hide Rep, Pow;
    var z2, z9, t0, t1 := new u32[32], new u32[32], new u32[32], new u32[32];
    z11, z2_5_0 := new u32[32], new u32[32];
    powSquare(z2, z, v, 1);
    powSquare(t1, z2, v, 2);
    powSquare(t0, t1, v, 4);
    powMult(z9, t0, z, v, 8, 1);
    powMult(z11, z9, z2, v, 9, 2);
    powSquare(t0, z11, v, 11);
    powMult(z2_5_0, t0, z9, v, 22, 9);
    assert Pow2(5) == 32;
  }

  method power10(z2_5_0: array<u32>, ghost v: int) returns (z2_10_0: array<u32>)
    requires z2_5_0.Length == 32 && OnesRep(z2_5_0[..], v, 5)
    ensures fresh(z2_10_0) && z2_10_0.Length == 32 && OnesRep(z2_10_0[..], v, 10)
  {
    var t0, t1 := new u32[32], new u32[32];
    z2_10_0 := new u32[32];
    assert Pow2(5) == 32;
    fiveSquares(t0, t1, z2_5_0, v, 31);
    powMult(z2_10_0, t0, z2_5_0, v, Doubled(31, 5), 31);
    Ones(5, 5);
  }

  /** Five squarings in a row; C writes them out. */
  method fiveSquares(t0: array<u32>, t1: array<u32>, x: array<u32>, ghost v: int, ghost e: nat)
    requires t0.Length == t1.Length == x.Length == 32 && t0 != t1 && t0 != x
    requires Rep(x[..], Pow(v, e))
    modifies t0, t1
    ensures Rep(t0[..], Pow(v, Doubled(e, 5)))
  {
    powSquare(t0, x, v, Doubled(e, 0));
    powSquare(t1, t0, v, Doubled(e, 1));
    powSquare(t0, t1, v, Doubled(e, 2));
    powSquare(t1, t0, v, Doubled(e, 3));
    powSquare(t0, t1, v, Doubled(e, 4));
  }

  /** recip from z2_10_0 to z2_50_0. */
  method power50(z2_50_0: array<u32>, t0: array<u32>, t1: array<u32>, z2_10_0: array<u32>, ghost v: int)
    requires Vectors(z2_50_0, t0, t1, z2_10_0) && Distinct(z2_50_0, t0, t1, z2_10_0)
    requires OnesRep(z2_10_0[..], v, 10)
    modifies z2_50_0, t0, t1
    ensures OnesRep(z2_50_0[..], v, 50)
  {
    hide OnesRep;
    var z2_20_0 := new u32[32];
    stage(z2_20_0, t0, t1, z2_10_0, z2_10_0, 10, v, 10);
    stage(t0, t0, t1, z2_20_0, z2_20_0, 20, v, 20);
    stage(z2_50_0, t1, t0, t0, z2_10_0, 10, v, 40);
  }

  /** The last five squarings of recip and the multiplication by z11. */
  method lastPower(out: array<u32>, t0: array<u32>, t1: array<u32>, z11: array<u32>, ghost v: int)
    requires Vectors(out, t0, t1, z11) && Distinct(out, t0, t1, z11)
    requires OnesRep(t0[..], v, 250) && Rep(z11[..], Pow(v, 11))
    modifies out, t0, t1
    ensures Rep(out[..], Pow(v, P - 2))
  {
    ghost var e := Pow2(250) - 1;
    fiveSquares(t1, t0, t0, v, e);
    powMult(out, t1, z11, v, Doubled(e, 5), 11);
    RecipExponent();
  }

  // ---- curve25519

  ghost const TWO254: nat := 0x4000000000000000000000000000000000000000000000000000000000000000

  /** decodeScalar25519 of RFC 7748, section 5, on the little-endian number: the three low bits and
      bit 255 go, bit 254 is set. */
  ghost function DecodeScalar(m: nat): nat { m % TWO254 - m % 8 + TWO254 }

  /** The masked u-coordinate. */
  ghost function DecodeU(m: nat): nat { m % TWO255 }

  /** Clamping on the low 31 bytes v, which end in the byte d, and the top byte. */
  lemma Clamped(m: int, v: nat, w: nat, d: nat, top: nat, p: nat)
    requires 64 * p == TWO254 && v < p && m == v + top * p && v == d + 256 * w
    ensures m >= 0 && v - d % 8 + (top % 64 + 64) * p == DecodeScalar(m)
  {
    Distribute(64 * (top / 64), top % 64, p);
    assert (64 * (top / 64)) * p == (top / 64) * TWO254;
    assert (top % 64) * p <= 63 * p;
    Remainder(m, TWO254, top / 64, v + (top % 64) * p);
    Distribute(top % 64, 64, p);
    LowThree(m, d, w, top, p);
  }

  lemma LowThree(m: int, d: nat, w: nat, top: nat, p: nat)
    requires 64 * p == TWO254 && m == d + 256 * w + top * p
    ensures m % 8 == d % 8
  {
    var q := TWO254 / 512;
    assert top * p == 8 * (top * q);
  }

  lemma ClampedBytes(n: seq<int>, e: seq<int>)
    requires |n| == |e| == 32 && forall i :: 0 <= i < 32 ==> 0 <= n[i] < 256
    requires forall i :: 0 < i < 31 ==> e[i] == n[i]
    requires e[0] == n[0] - n[0] % 8 && e[31] == n[31] % 64 + 64
    ensures Num(n) >= 0 && Num(e) == DecodeScalar(Num(n))
  {
    Powers();
    ValueBound(n, 255, 32);
    ValueBound(n, 255, 31);
    ValueBound(n[1..], 255, 30);
    FirstLimb(n); FirstLimb(e);
    ValuePrefix(n[1..], e[1..], 30);
    Clamped(Num(n), Value(n, 31), Value(n[1..], 30), n[0], n[31], Pow256(31));
  }

  lemma FirstLimb(s: seq<int>)
    requires |s| == 32
    ensures Value(s, 31) == s[0] + 256 * Value(s[1..], 30)
  {
    ValueUp(s[1..], s, 30);
  }

  lemma MaskedBytes(p: seq<int>, w: seq<int>)
    requires |p| == |w| == 32 && forall i :: 0 <= i < 32 ==> 0 <= p[i] < 256
    requires forall i :: 0 <= i < 31 ==> w[i] == p[i]
    requires w[31] == p[31] % 128
    ensures Num(p) >= 0 && Rep(w, DecodeU(Num(p)))
  {
    ValueBound(p, 255, 32);
    SplitTop(p, w);
  }

  lemma AsMultiple(m: nat, u: int)
    ensures var r := Multiple(DecodeScalar(m), u, 255); X25519(DecodeScalar(m), u) == Mul(r.x, Pow(r.z, P - 2))
  {
    hide X25519, Multiple, Mul;
    assert DecodeScalar(m) < TWO255;
    X25519IsMultiple(DecodeScalar(m), u);
  }

  /** The bytes stored in q are the little-endian encoding of X25519 of RFC 7748, which is x / z
      of the multiple of the point p by the clamped scalar. q may be n or p. */
  method curve25519(q: array<byte>, n: array<byte>, p: array<byte>)
    requires q.Length == n.Length == p.Length == 32
    modifies q
    ensures Num(old(n[..])) >= 0 && Num(old(p[..])) >= 0
    ensures Num(q[..]) == X25519(DecodeScalar(Num(old(n[..]))), DecodeU(Num(old(p[..]))))
    ensures var m := Multiple(DecodeScalar(Num(old(n[..]))), DecodeU(Num(old(p[..]))), 255);
            Num(q[..]) == Mul(m.x, Pow(m.z, P - 2))
  {
    hide Num, X25519, DecodeScalar, DecodeU, Rep;
    var e := clamp(n);
    var work := mask(p);
    AsMultiple(Num(n[..]), DecodeU(Num(p[..])));
    var workh := new u32[32];
    var work64 := multiply(work, workh, e, DecodeU(Num(p[..])));
    ghost var w := work64[..];
    assert Num(LowBytes(w)) == X25519(DecodeScalar(Num(n[..])), DecodeU(Num(p[..])));
    for i := 0 to 32
      invariant work64[..] == w && forall k :: 0 <= k < i ==> q[k] == w[k] % 256
    {
      q[i] := work64[i] % 256;
    }
    assert q[..] == LowBytes(w);
  }

  /** The scalar copied and clamped; the comments give the C operators. */
  method clamp(n: array<byte>) returns (e: array<byte>)
    requires n.Length == 32
    ensures fresh(e) && e.Length == 32
    ensures Num(n[..]) >= 0 && Num(e[..]) == DecodeScalar(Num(n[..]))
  {
    e := new byte[32];
    for i := 0 to 32
      invariant forall k :: 0 <= k < i ==> e[k] == n[k]
    {
      e[i] := n[i];
    }
    e[0] := e[0] - e[0] % 8;          // &= 248
    e[31] := e[31] % 128;             // &= 127
    e[31] := e[31] % 64 + 64;         // |= 64
    ClampedBytes(n[..], e[..]);
  }

  /** The point copied into work, without bit 255. */
  method mask(p: array<byte>) returns (work: array<u32>)
    requires p.Length == 32
    ensures fresh(work) && work.Length == 32
    ensures Num(p[..]) >= 0 && Rep(work[..], DecodeU(Num(p[..])))
  {
    work := new u32[32];
    for i := 0 to 32
      invariant forall k :: 0 <= k < i ==> work[k] == p[k]
    {
      work[i] := p[i];
    }
    work[31] := work[31] % 128;       // &= 127
    MaskedBytes(p[..], work[..]);
  }

  /** The four calls in the middle of curve25519. */
  method multiply(work: array<u32>, workh: array<u32>, e: array<byte>, ghost u: int)
    returns (work64: array<u32>)
    requires work.Length == workh.Length == e.Length == 32 && work != workh && Rep(work[..], u)
    modifies work, workh
    ensures fresh(work64) && work64.Length == 32
    ensures Num(e[..]) >= 0 && Num(LowBytes(work64[..])) == X25519(Num(e[..]), u)
  {
    mainloop(work, workh, e, u);
    hide Num, LadderFrom, Same, LowBytes, Pow;
    ghost var r := Selected(LadderFrom(Num(e[..]), u, 0));
    recip(workh, workh, r.z2);
    work64 := product(work, workh, r.x2, Pow(r.z2, P - 2));
    label F:
    freeze(work64);
    Reduced(old@F(Num(work64[..])), Mul(r.x2, Pow(r.z2, P - 2)));
  }

  lemma Reduced(x: int, v: int)
    requires Same(x, v) && 0 <= v < P
    ensures x % P == v
  {
  }

  /** The result is below p, and 32 bytes have one way to encode it. */
  lemma CanonicalEncoding(q: seq<int>, r: seq<int>)
    requires |q| == |r| == 32 && forall i :: 0 <= i < 32 ==> 0 <= q[i] < 256 && 0 <= r[i] < 256
    requires Num(q) == Num(r)
    ensures q == r
  {
    Unique(q, r, 32);
  }
}
