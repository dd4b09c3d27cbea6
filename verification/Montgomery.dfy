/** What the ladder of RFC 7748 computes: on the pairs (x, z) of the curve v^2 = u^3 + 486662 u^2 + u, the
    multiples of the point with the coordinate u, by doubling and by adding points of known difference. */
module Montgomery {
  import opened Bits
  import opened Field25519

  /** A point by its coordinate x / z. */
  datatype Pair = Pair(x: int, z: int)

  ghost function Double(p: Pair): Pair {
    var d := p.x * p.x - p.z * p.z;
    Pair(d * d, 4 * (p.x * p.z) * (p.x * p.x + 486662 * (p.x * p.z) + p.z * p.z))
  }

  /** The sum of two points whose difference has the coordinate u. */
  ghost function Sum(p: Pair, q: Pair, u: int): Pair {
    var s, d := p.x * q.x - p.z * q.z, p.x * q.z - p.z * q.x;
    Pair(4 * (s * s), u * (4 * (d * d)))
  }

  /** The n-th multiple of (u, 1) in as many halvings of n as given. */
  ghost function Multiple(n: nat, u: int, halvings: nat): Pair {
    if halvings == 0 then if n == 0 then Pair(1, 0) else Pair(u, 1)
    else if n % 2 == 0 then Double(Multiple(n / 2, u, halvings - 1))
    else Sum(Multiple(n / 2, u, halvings - 1), Multiple(n / 2 + 1, u, halvings - 1), u)
  }

  /** The multiple by 0 is the neutral point, and that by 1 has the coordinate u. */
  lemma {:induction false} FirstMultiples(u: int, halvings: nat)
    ensures Multiple(0, u, halvings) == Pair(1, 0)
    ensures Multiple(1, u, halvings).x == u * Multiple(1, u, halvings).z
  {
    if halvings > 0 {
      FirstMultiples(u, halvings - 1);
      var p := Multiple(1, u, halvings - 1);
      assert Sum(Pair(1, 0), p, u) == Pair(4 * (p.x * p.x), u * (4 * (p.z * p.z)));
      SquareOfProduct(u, p.z);
    }
  }

  lemma SquareOfProduct(u: int, z: int)
    ensures 4 * ((u * z) * (u * z)) == u * (u * (4 * (z * z)))
  {
    var w := u * z;
    assert w * w == u * (z * w) && z * w == u * (z * z);
  }

  /** x and z stand for the pair p in the field. */
  ghost predicate Stands(x: int, z: int, p: Pair) { Same(x, p.x) && Same(z, p.z) }

  // ---- The operations of a step as polynomials

  lemma Reduced(x: int)
    ensures Same(x % P, x)
  {
    Remainder(x % P, P, 0, x % P);
  }

  lemma AddSame(x: int, y: int, a: int, b: int)
    requires Same(x, a) && Same(y, b)
    ensures Same(Add(x, y), a + b) && Same(Sub(x, y), a - b)
  {
    SameSum(x, a, y, b);
    Reduced(x + y);
    Reduced(x - y);
  }

  lemma MulSame(x: int, y: int, a: int, b: int)
    requires Same(x, a) && Same(y, b)
    ensures Same(Mul(x, y), a * b)
  {
    SameMul(x, a, y, b);
    Reduced(x * y);
  }

  /** The product, kept closed in proofs about its congruences. */
  ghost function Times(x: int, y: int): int { x * y }

  lemma TimesSame(x: int, y: int, a: int, b: int)
    requires Same(x, a) && Same(y, b)
    ensures Same(Mul(x, y), Times(a, b))
  {
    MulSame(x, y, a, b);
  }

  lemma DoubleForm(p: Pair)
    ensures var a, b := p.x + p.z, p.x - p.z; var e := Times(a, a) - Times(b, b);
            Double(p) == Pair(Times(Times(a, a), Times(b, b)), Times(e, Times(a, a) + Times(121665, e)))
  {
    var x, z := p.x, p.z;
    var a, b, c, d, w := x + z, x - z, x * x, z * z, x * z;
    assert a * b == c - d;
    assert a * a == c + 2 * w + d && b * b == c - 2 * w + d;
    Regrouped(a, b);
    assert a * a + 121665 * (4 * w) == c + 486662 * w + d;
  }

  lemma Regrouped(a: int, b: int)
    ensures (a * a) * (b * b) == (a * b) * (a * b)
  {
  }

  /** x2 and z2 after a step are the double of the pair in them. */
  lemma Doubling(l: Ladder, x1: int, p: Pair)
    requires Stands(l.x2, l.z2, p)
    ensures var m := DoubleAndAdd(l, x1); Stands(m.x2, m.z2, Double(p))
  {
    hide Same, Add, Sub, Mul, Times, Double;
    DoubleForm(p);
    var a, b := Add(l.x2, l.z2), Sub(l.x2, l.z2);
    var va, vb := p.x + p.z, p.x - p.z;
    AddSame(l.x2, l.z2, p.x, p.z);
    TimesSame(a, a, va, va);
    TimesSame(b, b, vb, vb);
    var aa, bb := Times(va, va), Times(vb, vb);
    var e := Sub(Sqr(a), Sqr(b));
    TimesSame(Sqr(a), Sqr(b), aa, bb);
    AddSame(Sqr(a), Sqr(b), aa, bb);
    Itself(A24);
    TimesSame(A24, e, A24, aa - bb);
    AddSame(Sqr(a), Mul(A24, e), aa, Times(A24, aa - bb));
    TimesSame(e, Add(Sqr(a), Mul(A24, e)), aa - bb, aa + Times(A24, aa - bb));
  }

  lemma Itself(x: int)
    ensures Same(x, x)
  {
  }

  lemma SumForm(p: Pair, q: Pair, u: int)
    ensures var da, cb := Times(q.x - q.z, p.x + p.z), Times(q.x + q.z, p.x - p.z);
            Sum(p, q, u) == Pair(Times(da + cb, da + cb), Times(u, Times(da - cb, da - cb)))
  {
    var s, t := p.x * q.x - p.z * q.z, p.x * q.z - p.z * q.x;
    CrossProducts(p.x, p.z, q.x, q.z);
    SquaredTwice(s);
    SquaredTwice(t);
  }

  lemma CrossProducts(x: int, z: int, x': int, z': int)
    ensures (x' - z') * (x + z) + (x' + z') * (x - z) == 2 * (x * x' - z * z')
    ensures (x' - z') * (x + z) - (x' + z') * (x - z) == -2 * (x * z' - z * x')
  {
    assert (x' - z') * (x + z) == x * x' + x' * z - x * z' - z * z';
    assert (x' + z') * (x - z) == x * x' - x' * z + x * z' - z * z';
  }

  lemma SquaredTwice(d: int)
    ensures (2 * d) * (2 * d) == 4 * (d * d) == (-2 * d) * (-2 * d)
  {
  }

  /** x3 and z3 after a step are the sum of the two pairs. */
  lemma Adding(l: Ladder, x1: int, p: Pair, q: Pair)
    requires Stands(l.x2, l.z2, p) && Stands(l.x3, l.z3, q)
    ensures var m := DoubleAndAdd(l, x1); Stands(m.x3, m.z3, Sum(p, q, x1))
  {
    hide Same, Add, Sub, Mul, Times, Sum;
    SumForm(p, q, x1);
    var a, b, c, d := Add(l.x2, l.z2), Sub(l.x2, l.z2), Add(l.x3, l.z3), Sub(l.x3, l.z3);
    AddSame(l.x2, l.z2, p.x, p.z);
    AddSame(l.x3, l.z3, q.x, q.z);
    var da, cb := Times(q.x - q.z, p.x + p.z), Times(q.x + q.z, p.x - p.z);
    TimesSame(d, a, q.x - q.z, p.x + p.z);
    TimesSame(c, b, q.x + q.z, p.x - p.z);
    AddSame(Mul(d, a), Mul(c, b), da, cb);
    var f, g := Add(Mul(d, a), Mul(c, b)), Sub(Mul(d, a), Mul(c, b));
    TimesSame(f, f, da + cb, da + cb);
    TimesSame(g, g, da - cb, da - cb);
    Itself(x1);
    TimesSame(x1, Sqr(g), x1, Times(da - cb, da - cb));
  }

  lemma SumCommutes(p: Pair, q: Pair, u: int)
    ensures Sum(p, q, u) == Sum(q, p, u)
  {
    var d := p.x * q.z - p.z * q.x;
    assert q.x * p.z - q.z * p.x == -d;
    assert d * d == (-d) * (-d);
    assert p.x * q.x - p.z * q.z == q.x * p.x - q.z * p.z;
  }

  // ---- The ladder

  /** The pairs of a multiple and of the next one. */
  ghost predicate Climbed(l: Ladder, n: nat, u: int, halvings: nat) {
    Stands(l.x2, l.z2, Multiple(n, u, halvings)) && Stands(l.x3, l.z3, Multiple(n + 1, u, halvings))
  }

  lemma MultipleStep(n: nat, u: int, halvings: nat)
    ensures Multiple(2 * n, u, halvings + 1) == Double(Multiple(n, u, halvings))
    ensures Multiple(2 * n + 1, u, halvings + 1) ==
            Sum(Multiple(n, u, halvings), Multiple(n + 1, u, halvings), u)
  {
    hide Double, Sum;
    assert 2 * n / 2 == n && (2 * n + 1) / 2 == n;
  }

  lemma StepClimbs(l: Ladder, u: int, bit: bool, n: nat, halvings: nat)
    requires Climbed(Selected(l), n, u, halvings)
    ensures Climbed(Selected(LadderStep(l, u, bit)), 2 * n + if bit then 1 else 0, u, halvings + 1)
  {
    hide Stands, DoubleAndAdd, Double, Sum, Multiple;
    MultipleStep(n, u, halvings);
    MultipleStep(n + 1, u, halvings);
    assert 2 * (n + 1) == 2 * n + 1 + 1;
    var m := CSwap(l.swap != bit, l);
    var p, q := Multiple(n, u, halvings), Multiple(n + 1, u, halvings);
    if bit {
      Doubling(m, u, q);
      Adding(m, u, q, p);
      SumCommutes(p, q, u);
    } else {
      Doubling(m, u, p);
      Adding(m, u, p, q);
    }
  }

  lemma NextBit(k: nat, t: nat)
    requires t < 255
    ensures k / Pow2(t) % Pow2(255 - t) ==
            2 * (k / Pow2(t + 1) % Pow2(254 - t)) + if Bit(k, t) then 1 else 0
  {
    Pow2Step(t + 1);
    Pow2Step(255 - t);
    DivideTwice(k, Pow2(t), 2);
    HalfMod(k / Pow2(t), Pow2(254 - t));
  }

  /** After the bits 254 down to t the ladder stands for the multiples by the number n that these bits
      are, and by n + 1. */
  lemma {:induction false} LadderMultiples(k: nat, u: int, t: nat)
    requires t <= 255
    ensures Climbed(Selected(LadderFrom(k, u, t)), k / Pow2(t) % Pow2(255 - t), u, 255 - t)
    decreases 255 - t
  {
    if t == 255 {
      Remainder(k / Pow2(255), 1, k / Pow2(255), 0);
    } else {
      hide Climbed, LadderStep, Bit, Pow2;
      LadderMultiples(k, u, t + 1);
      NextBit(k, t);
      StepClimbs(LadderFrom(k, u, t + 1), u, Bit(k, t), k / Pow2(t + 1) % Pow2(254 - t), 254 - t);
    }
  }

  /** X25519 is x / z of the multiple by the scalar modulo 2^255, with z^(p - 2) for 1 / z. */
  lemma X25519IsMultiple(k: nat, u: int)
    ensures var m := Multiple(k % TWO255, u, 255); X25519(k, u) == Mul(m.x, Pow(m.z, P - 2))
  {
    hide Pow2, Multiple, LadderFrom, Same;
    LadderMultiples(k, u, 0);
    var m := Multiple(k % TWO255, u, 255);
    var r := Selected(LadderFrom(k, u, 0));
    Powers255();
    assert Stands(r.x2, r.z2, m);
    PowSame(r.z2, m.z, P - 2);
    Itself(Pow(m.z, P - 2));
    MulEqual(r.x2, Pow(r.z2, P - 2), m.x, Pow(m.z, P - 2));
  }

  lemma MulEqual(x: int, y: int, a: int, b: int)
    requires Same(x, a) && Same(y, b)
    ensures Mul(x, y) == Mul(a, b)
  {
    SameMul(x, a, y, b);
  }

  lemma Powers255()
    ensures Pow2(0) == 1 && Pow2(255) == TWO255
  {
    SmallPowers();
    hide Pow2;
    Pow2Add(8, 8);
    Pow2Add(16, 16);
    Pow2Add(32, 32);
    Pow2Add(64, 64);
    Pow2Add(128, 64);
    Pow2Add(192, 32);
    Pow2Add(224, 16);
    Pow2Add(240, 8);
    Pow2Add(248, 7);
  }

  lemma SmallPowers()
    ensures Pow2(0) == 1 && Pow2(7) == 128 && Pow2(8) == 256
  {
  }
}
