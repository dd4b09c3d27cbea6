/** The formulas of the ladder are the tangent and the chord of the curve v^2 = x^3 + 486662 x^2 + x. */
module CurveLaw {
  import opened Field25519
  import opened Montgomery

  const A: int := 486662

  function Cubic(x: int, a: int): int { x * (x * x) + a * (x * x) + x }

  ghost predicate OnCurve(x: int, v: int) { Same(v * v, Cubic(x, A)) }

  // ---- Doubling

  /** The coordinate of the double of (x, v) is (s / 2v)^2 - A - 2x, with s / 2v the slope of the tangent
      and 4v^2 from the equation of the curve. */
  lemma TangentLaw(x: int)
    ensures var s, w := 3 * (x * x) + 2 * (A * x) + 1, Cubic(x, A);
            Double(Pair(x, 1)) == Pair(s * s - 4 * ((A + 2 * x) * w), 4 * w)
  {
    Tangent(x, A);
    Factored(x, A);
  }

  lemma Factored(x: int, a: int)
    ensures Cubic(x, a) == x * (x * x + a * x + 1)
  {
    Regroup(x, a, x);
    Spread(x, x * x, a * x, 1, 0);
  }

  lemma Tangent(x: int, a: int)
    ensures var s, w := 3 * (x * x) + 2 * (a * x) + 1, Cubic(x, a);
            s * s - 4 * ((a + 2 * x) * w) == (x * x - 1) * (x * x - 1)
  {
    Factored(x, a);
    Regroup(a + 2 * x, x, x * x + a * x + 1);
    Slope(x, a);
    TangentInParts(x * x, a * x, (a + 2 * x) * Cubic(x, a));
  }

  lemma Slope(x: int, a: int)
    ensures (a + 2 * x) * x == a * x + 2 * (x * x)
  {
  }

  lemma TangentInParts(q: int, r: int, t: int)
    requires t == (r + 2 * q) * (q + r + 1)
    ensures (3 * q + 2 * r + 1) * (3 * q + 2 * r + 1) - 4 * t == (q - 1) * (q - 1)
  {
  }

  // ---- Adding

  lemma Spread(x: int, a: int, b: int, c: int, d: int)
    ensures x * (a + b + c + d) == x * a + x * b + x * c + x * d
  {
  }

  lemma Regroup(x: int, y: int, z: int)
    ensures x * (y * z) == (x * y) * z == y * (x * z)
  {
  }

  /** The sum of two values of the cubic by the sum e and the product f. */
  lemma SumOfCubics(x: int, y: int, a: int)
    ensures var e, f := x + y, x * y;
            Cubic(x, a) + Cubic(y, a) == e * (a * e + e * e) - 3 * (e * f) - 2 * (a * f) + e
  {
    var e, f, p, q := x + y, x * y, x * x, y * y;
    assert e * e == p + 2 * f + q;
    Spread(a, p, 2 * f, q, 0);
    Spread(e, p, 2 * f, q, 0);
    Spread(e, a * e, e * e, 0, 0);
    Regroup(e, a, e);
    CubeOfSum(x, y);
  }

  lemma CubeOfSum(x: int, y: int)
    ensures var e, f, p, q := x + y, x * y, x * x, y * y;
            e * p + 2 * (e * f) + e * q == x * p + 3 * (e * f) + y * q
  {
    var f := x * y;
    Regroup(x, y, y);
    Regroup(y, x, x);
  }

  lemma Chord1(g: int, f: int)
    ensures (g - f + 1) * (g - f + 1) == g * g + f * f + 1 - 2 * (g * f) + 2 * g - 2 * f
  {
  }

  lemma Chord2(a: int, e: int, f: int, c: int, g: int)
    requires g == c * e
    ensures c * (e * g - 3 * (e * f) - 2 * (a * f) + e) == g * g - 3 * (g * f) - 2 * ((a * c) * f) + g
  {
    Spread(c, e * g, -3 * (e * f), -2 * (a * f), e);
    Regroup(c, e, g);
    Regroup(c, e, f);
    Regroup(c, a, f);
    Regroup(c, -3, e * f);
    Regroup(c, -2, a * f);
  }

  lemma Chord3(a: int, e: int, f: int, c: int, g: int)
    requires c == a + e && g == c * e
    ensures (c * c) * (e * e - 4 * f) == g * g - 4 * ((a * c) * f) - 4 * (g * f)
  {
    assert (c * c) * (e * e) == g * g by { Regroup(c * c, e, e); Regroup(c, c, e); Regroup(c, e, g); }
    assert c * c == a * c + g by { Spread(c, a, e, 0, 0); }
    assert (c * c) * f == (a * c) * f + g * f by { Spread(f, a * c, g, 0, 0); }
    TwoTerms(c * c, e * e, f);
  }

  lemma TwoTerms(k: int, x: int, f: int)
    ensures k * (x - 4 * f) == k * x - 4 * (k * f)
  {
  }

  lemma ChordInSums(a: int, e: int, f: int)
    ensures var c, g := a + e, a * e + e * e;
            var s, t := g - f + 1, e * g - 3 * (e * f) - 2 * (a * f) + e;
            s * s - 2 * (c * t) + (c * c) * (e * e - 4 * f) == (f - 1) * (f - 1)
  {
    var c, g := a + e, a * e + e * e;
    assert g == c * e;
    Chord1(g, f);
    Chord2(a, e, f, c, g);
    Chord3(a, e, f, c, g);
    Chord1(f - 1, 1);
  }

  /** The identity behind the addition of points. */
  lemma ChordIdentity(x: int, y: int, a: int)
    ensures var d, c, s := y - x, a + x + y, x * x + x * y + y * y + a * (x + y) + 1;
            s * s - 2 * (c * (Cubic(x, a) + Cubic(y, a))) + (c * c) * (d * d) == (x * y - 1) * (x * y - 1)
    ensures Cubic(y, a) - Cubic(x, a) == (y - x) * (x * x + x * y + y * y + a * (x + y) + 1)
  {
    var e, f := x + y, x * y;
    SumOfCubics(x, y, a);
    ChordInSums(a, e, f);
    assert e * e == x * x + 2 * f + y * y;
    assert (y - x) * (y - x) == e * e - 4 * f;
    DifferenceOfCubics(x, y, a);
  }

  lemma DifferenceOfCubics(x: int, y: int, a: int)
    ensures Cubic(y, a) - Cubic(x, a) == (y - x) * (x * x + x * y + y * y + a * (x + y) + 1)
  {
    DifferenceOfCubes(x, y);
    ThreeTerms(y - x, x * x + x * y + y * y, x + y, a);
    DifferenceOfSquares(x, y, a);
  }

  lemma ThreeTerms(d: int, k: int, m: int, a: int)
    ensures d * (k + a * m + 1) == d * k + a * (d * m) + d
  {
    Regroup(d, a, m);
    Spread(d, k, a * m, 1, 0);
  }

  lemma DifferenceOfSquares(x: int, y: int, a: int)
    ensures a * ((y - x) * (x + y)) == a * (y * y) - a * (x * x)
  {
    assert (y - x) * (x + y) == y * y - x * x;
    Spread(a, y * y, -(x * x), 0, 0);
  }

  lemma DifferenceOfCubes(x: int, y: int)
    ensures (y - x) * (x * x + x * y + y * y) == y * (y * y) - x * (x * x)
  {
    var p, q, f := x * x, y * y, x * y;
    Spread(y - x, p, f, q, 0);
    Regroup(y, x, x);
    Regroup(x, y, y);
  }

  /** (x2 - x1)^2 times the coordinate of the sum of (x1, v1) and (x2, v2). */
  ghost function Chord(x1: int, v1: int, x2: int, v2: int): int {
    (v2 - v1) * (v2 - v1) - (A + x1 + x2) * ((x2 - x1) * (x2 - x1))
  }

  lemma ChordProduct(v1: int, v2: int, b: int)
    ensures ((v2 - v1) * (v2 - v1) - b) * ((v2 + v1) * (v2 + v1) - b) ==
            (v2 * v2 - v1 * v1) * (v2 * v2 - v1 * v1) - 2 * (b * (v1 * v1 + v2 * v2)) + b * b
  {
    var m, n := (v2 - v1) * (v2 - v1), (v2 + v1) * (v2 + v1);
    assert m + n == 2 * (v1 * v1 + v2 * v2);
    assert (v2 - v1) * (v2 + v1) == v2 * v2 - v1 * v1;
    assert m * n == ((v2 - v1) * (v2 + v1)) * ((v2 - v1) * (v2 + v1)) by { FourFactors(v2 - v1, v2 + v1); }
    TwoFactors(m, n, b);
    Regroup(b, 2, v1 * v1 + v2 * v2);
  }

  lemma FourFactors(m: int, n: int)
    ensures (m * m) * (n * n) == (m * n) * (m * n)
  {
  }

  lemma TwoFactors(m: int, n: int, b: int)
    ensures (m - b) * (n - b) == m * n - b * (m + n) + b * b
  {
  }

  lemma ChordForms(x1: int, v1: int, x2: int, v2: int)
    ensures var b := (A + x1 + x2) * ((x2 - x1) * (x2 - x1));
            Chord(x1, v1, x2, v2) == (v2 - v1) * (v2 - v1) - b &&
            Chord(x1, -v1, x2, v2) == (v2 + v1) * (v2 + v1) - b
  {
    assert v2 - -v1 == v2 + v1;
  }

  /** On the curve the product of the coordinates of the sum and of the difference is known. */
  lemma ChordsMultiply(x1: int, v1: int, x2: int, v2: int)
    requires OnCurve(x1, v1) && OnCurve(x2, v2)
    ensures var d, s := (x2 - x1) * (x2 - x1), x1 * x2 - 1;
            Same(Chord(x1, v1, x2, v2) * Chord(x1, -v1, x2, v2), d * (s * s))
  {
    hide Same, Cubic, Chord;
    ChordForms(x1, v1, x2, v2);
    var y1, y2, w1, w2 := Cubic(x1, A), Cubic(x2, A), v1 * v1, v2 * v2;
    var d, c, s := (x2 - x1) * (x2 - x1), A + x1 + x2, x1 * x2 - 1;
    var b, k := c * d, x1 * x1 + x1 * x2 + x2 * x2 + A * (x1 + x2) + 1;
    ChordProduct(v1, v2, b);
    ChordIdentity(x1, x2, A);
    CongruentForms(w1, y1, w2, y2, b);
    FourFactors(x2 - x1, k);
    OverSquare(d, k, c, y1 + y2, s);
  }

  lemma OverSquare(d: int, k: int, c: int, t: int, s: int)
    requires k * k - 2 * (c * t) + (c * c) * d == s * s
    ensures d * (k * k) - 2 * ((c * d) * t) + (c * d) * (c * d) == d * (s * s)
  {
    Regroup(d, c, t);
    Regroup(d, c * c, d);
    FourFactors(c, d);
    Spread(d, k * k, -2 * (c * t), (c * c) * d, 0);
    Regroup(d, -2, c * t);
  }

  lemma CongruentForms(w1: int, y1: int, w2: int, y2: int, b: int)
    requires Same(w1, y1) && Same(w2, y2)
    ensures Same((w2 - w1) * (w2 - w1) - 2 * (b * (w1 + w2)) + b * b,
                 (y2 - y1) * (y2 - y1) - 2 * (b * (y1 + y2)) + b * b)
  {
    hide Same;
    SameSum(w2, y2, w1, y1);
    SameMul(w2 - w1, y2 - y1, w2 - w1, y2 - y1);
    SameSum(w1, y1, w2, y2);
    Itself(b);
    Itself(2);
    SameMul(b, b, w1 + w2, y1 + y2);
    SameMul(2, 2, b * (w1 + w2), b * (y1 + y2));
    SameSum((w2 - w1) * (w2 - w1), (y2 - y1) * (y2 - y1), 2 * (b * (w1 + w2)), 2 * (b * (y1 + y2)));
    Itself(b * b);
    SameSum((w2 - w1) * (w2 - w1) - 2 * (b * (w1 + w2)), (y2 - y1) * (y2 - y1) - 2 * (b * (y1 + y2)), b * b, b * b);
  }

  /** When u is the coordinate of the difference of two points, Sum gives the coordinate of their sum:
      x / z of it is Chord / (x2 - x1)^2. */
  lemma ChordLaw(x1: int, v1: int, x2: int, v2: int, u: int)
    requires OnCurve(x1, v1) && OnCurve(x2, v2)
    requires Same(u * ((x2 - x1) * (x2 - x1)), Chord(x1, -v1, x2, v2))
    ensures var r := Sum(Pair(x1, 1), Pair(x2, 1), u);
            Same(r.z * Chord(x1, v1, x2, v2), r.x * ((x2 - x1) * (x2 - x1)))
  {
    hide Same, Chord;
    var d, s, n := (x2 - x1) * (x2 - x1), x1 * x2 - 1, Chord(x1, v1, x2, v2);
    ChordsMultiply(x1, v1, x2, v2);
    Itself(n);
    SameMul(n, n, u * d, Chord(x1, -v1, x2, v2));
    Through(n * (u * d), n * Chord(x1, -v1, x2, v2), d * (s * s));
    Itself(4);
    SameMul(4, 4, n * (u * d), d * (s * s));
    assert (x1 - x2) * (x1 - x2) == d;
    Arranged(u, d, n, s);
  }

  lemma Arranged(u: int, d: int, n: int, s: int)
    ensures (u * (4 * d)) * n == 4 * (n * (u * d)) && (4 * (s * s)) * d == 4 * (d * (s * s))
  {
    Regroup(u, 4, d);
    Regroup(4, u * d, n);
    Regroup(4, s * s, d);
  }

  lemma Through(x: int, y: int, z: int)
    requires Same(x, y) && Same(y, z)
    ensures Same(x, z)
  {
  }
}
