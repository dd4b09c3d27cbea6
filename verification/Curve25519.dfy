/** The limb routines of src/curve25519.c on arrays of 32-bit words, each proved to do what Field25519
    says. The halves of an array of 64 limbs are two arrays here. */
module Curve25519 {
  import opened Bits
  import opened Field25519
  import opened Limbs

  type byte = x: int | 0 <= x < 256

  /** A vector as squeeze leaves it. */
  ghost predicate Squeezed(s: seq<int>) { Within(s, 255, 128) }

  /** A vector as add and sub leave it. */
  ghost predicate Loose(s: seq<int>) { Within(s, 255, 511) }

  /** The end of add and of sub: what comes to the top limb stays there. */
  method storeTop(out: array<u32>, u: u32, ghost t: seq<int>, ghost v: int)
    requires out.Length == |t| == 32
    requires out[..31] == Bytes(t, v, 31) && u == CarryInto(t, v, 31) + t[31] <= 511
    modifies out
    ensures Num(out[..]) == Num(t) + v && Loose(out[..])
  {
    hide Num, Bytes, CarryInto;
    CarriedNum(t, v);
    out[31] := u;
    assert out[..] == Carried(t, v);
  }

  method add(out: array<u32>, a: array<u32>, b: array<u32>)
    requires out.Length == a.Length == b.Length == 32
    requires Squeezed(a[..]) && Squeezed(b[..])
    modifies out
    ensures Num(out[..]) == old(Num(a[..])) + old(Num(b[..]))
    ensures Loose(out[..])
  {
    ghost var t := Sums(a[..], b[..]);
    SumsNum(a[..], b[..]);
    CarryStart(t, 0);
    hide Num, CarryInto, Bytes;
    var j, u: u32 := 0, 0;
    while j < 31
      invariant j <= 31 && u <= 2 && u == CarryInto(t, 0, j)
      invariant out[..j] == Bytes(t, 0, j)
      invariant forall k :: j <= k < 32 ==> a[k] == old(a[k]) && b[k] == old(b[k])
    {
      CarryAt(t, 0, j);
      u := Wrap(u + Wrap(a[j] + b[j]));
      out[j] := u % 256;
      u := u / 256;
      j := j + 1;
    }
    u := Wrap(u + Wrap(a[31] + b[31]));
    storeTop(out, u, t, 0);
  }

  lemma DifferencesAt(x: seq<int>, y: seq<int>)
    requires |x| == |y| == 32
    ensures forall i :: 0 <= i < 31 ==> Differences(x, y)[i] == x[i] + 65280 - y[i]
    ensures Differences(x, y)[31] == x[31] - y[31]
  {
  }

  /** A limb of the difference does not wrap, and leaves a carry close to its bias. */
  lemma BiasedDifference(u: u32, x: u32, y: u32)
    requires u <= 256 && x <= 255 && y <= 255
    ensures Wrap(u + Wrap(Wrap(x + 65280) as int - y)) == u + (x + 65280 - y)
    ensures 254 <= (u + (x + 65280 - y)) / 256 <= 256
  {
  }

  method sub(out: array<u32>, a: array<u32>, b: array<u32>)
    requires out.Length == a.Length == b.Length == 32
    requires Squeezed(a[..]) && Squeezed(b[..])
    modifies out
    ensures Num(out[..]) == old(Num(a[..])) - old(Num(b[..])) + 2 * P
    ensures Loose(out[..])
  {
    hide Num, CarryInto, Bytes, Differences;
    ghost var x, y := a[..], b[..];
    DifferencesNum(x, y);
    DifferencesAt(x, y);
    var u := subLow(out, a, b);
    WrapDifference(u, a[31], b[31]);
    u := Wrap(u + Wrap(a[31] as int - b[31]));
    storeTop(out, u, Differences(x, y), 218);
  }

  /** The loop over all limbs but the top one. */
  method subLow(out: array<u32>, a: array<u32>, b: array<u32>) returns (u: u32)
    requires out.Length == a.Length == b.Length == 32
    requires Squeezed(a[..]) && Squeezed(b[..])
    modifies out
    ensures out[..31] == Bytes(old(Differences(a[..], b[..])), 218, 31)
    ensures u == CarryInto(old(Differences(a[..], b[..])), 218, 31) && 254 <= u <= 256
    ensures a[31] == old(a[31]) && b[31] == old(b[31])
  {
    hide CarryInto, Bytes, Differences, Wrap;
    ghost var x, y := a[..], b[..];
    ghost var t := Differences(x, y);
    DifferencesAt(x, y);
    CarryStart(t, 218);
    var j := 0;
    u := 218;
    while j < 31
      invariant j <= 31 && u <= 256 && u == CarryInto(t, 218, j) && (j > 0 ==> u >= 254)
      invariant out[..j] == Bytes(t, 218, j)
      invariant forall k :: j <= k < 32 ==> a[k] == x[k] && b[k] == y[k]
    {
      CarryAt(t, 218, j);
      BiasedDifference(u, a[j], b[j]);
      u := Wrap(u + Wrap(Wrap(a[j] + 65280) as int - b[j]));
      out[j] := u % 256;
      u := u / 256;
      j := j + 1;
    }
  }

  /** The second carry loop of squeeze and of mult121665: what lay above bit 255 of v comes back
      in at the bottom, times 19. */
  method foldBack(a: array<u32>, excess: u32, ghost v: int)
    requires a.Length == 32 && Within(a[..], 255, 127)
    requires 0 <= v < 0x80_0000 * TWO255
    requires Num(a[..]) == v % TWO255 && excess == 19 * (v / TWO255)
    modifies a
    ensures Num(a[..]) == Fold(v) && Squeezed(a[..])
  {
    ghost var t := a[..];
    SecondPass(t, excess, v);
    CarryStart(t, excess);
    hide Num, Fold, CarryInto, Bytes;
    var j, u: u32 := 0, excess;
    while j < 31
      invariant j <= 31 && u <= 19 * 0x80_0000 && u == CarryInto(t, excess, j)
      invariant a[..j] == Bytes(t, excess, j)
      invariant forall k :: j <= k < 32 ==> a[k] == t[k]
    {
      CarryAt(t, excess, j);
      u := Wrap(u + a[j]);
      a[j] := u % 256;
      u := u / 256;
      j := j + 1;
    }
    u := Wrap(u + a[31]);
    a[31] := u;
    assert a[..] == Carried(t, excess);
  }

  /** The end of squeeze and of mult121665: u is what comes to the top limb, of which seven bits stay. */
  method foldTop(a: array<u32>, u: u32, ghost t: seq<int>)
    requires a.Length == |t| == 32 && Within(t, 0x2000_0000, 0x2000_0000)
    requires a[..31] == Bytes(t, 0, 31) && u == CarryInto(t, 0, 31) + t[31]
    modifies a
    ensures Num(a[..]) == Fold(Num(t)) && Squeezed(a[..])
  {
    hide Num, Fold, CarryInto, Bytes, Within;
    a[31] := u % 128;
    assert a[..] == Carried(t, 0)[31 := Carried(t, 0)[31] % 128];
    FirstPass(t, a[..]);
    var excess := Wrap(19 * (u / 128));
    foldBack(a, excess, Num(t));
  }

  /** The bound on the limbs is what keeps u from losing a carry. */
  method squeeze(a: array<u32>)
    requires a.Length == 32 && Within(a[..], 0x2000_0000, 0x2000_0000)
    modifies a
    ensures Num(a[..]) == Fold(old(Num(a[..]))) && Squeezed(a[..])
  {
    ghost var t := a[..];
    CarryStart(t, 0);
    hide Num, Fold, CarryInto, Bytes;
    var j, u: u32 := 0, 0;
    while j < 31
      invariant j <= 31 && u <= 0x40_0000 && u == CarryInto(t, 0, j)
      invariant a[..j] == Bytes(t, 0, j)
      invariant forall k :: j <= k < 32 ==> a[k] == t[k] <= 0x2000_0000
    {
      CarryAt(t, 0, j);
      u := Wrap(u + a[j]);
      a[j] := u % 256;
      u := u / 256;
      j := j + 1;
    }
    u := Wrap(u + a[31]);
    foldTop(a, u, t);
  }

  method mult121665(out: array<u32>, a: array<u32>)
    requires out.Length == a.Length == 32 && out != a
    requires Loose(a[..])
    modifies out
    ensures Num(out[..]) == Fold(121665 * old(Num(a[..]))) && Squeezed(out[..])
  {
    ghost var t := Scaled(a[..]);
    ScaledNum(a[..]);
    ScaledAt(a[..]);
    CarryStart(t, 0);
    hide Num, Fold, Scaled, Within, CarryInto, Bytes;
    var j, u: u32 := 0, 0;
    while j < 31
      invariant j <= 31 && u <= 0x40_0000 && u == CarryInto(t, 0, j)
      invariant out[..j] == Bytes(t, 0, j)
      invariant forall k :: j <= k < 32 ==> a[k] == old(a[k]) <= 511
    {
      CarryAt(t, 0, j);
      u := Wrap(u + Wrap(121665 * a[j]));
      out[j] := u % 256;
      u := u / 256;
      j := j + 1;
    }
    u := Wrap(u + Wrap(121665 * a[31]));
    foldTop(out, u, t);
  }

  /** Both inner loops of mult, for column i. */
  method multColumn(a: array<u32>, b: array<u32>, i: nat) returns (u: u32)
    requires a.Length == b.Length == 32 && i < 32
    requires Loose(a[..]) && Loose(b[..])
    ensures u == Column(a[..], b[..], i, 32) <= 0x2000_0000
  {
    ghost var x, y := a[..], b[..];
    var j := 0;
    u := 0;
    assert Column(x, y, i, 0) == 0;
    hide Column;
    while j <= i
      invariant j <= i + 1 && u == Column(x, y, i, j) <= 0x2000_0000
    {
      ColumnStep(x, y, i, j);
      u := Wrap(u + Wrap(a[j] * b[i - j]));
      j := j + 1;
    }
    while j < 32
      invariant i < j <= 32 && u == Column(x, y, i, j) <= 0x2000_0000
    {
      ColumnStep(x, y, i, j);
      u := Wrap(u + Wrap(Wrap(38 * a[j]) * b[i + 32 - j]));
      j := j + 1;
    }
  }

  method mult(out: array<u32>, a: array<u32>, b: array<u32>)
    requires out.Length == a.Length == b.Length == 32 && out != a && out != b
    requires Loose(a[..]) && Loose(b[..])
    modifies out
    ensures Num(out[..]) == Fold(old(Num(Columns(a[..], b[..], 32)))) && Squeezed(out[..])
    ensures Same(Num(out[..]), old(Num(a[..])) * old(Num(b[..])))
  {
    ghost var x, y, c := a[..], b[..], Columns(a[..], b[..], 32);
    var i: u32 := 0;
    while i < 32
      invariant i <= 32
      invariant a[..] == x && b[..] == y
      invariant forall k :: 0 <= k < i ==> out[k] == c[k] <= 0x2000_0000
    {
      var u := multColumn(a, b, i);
      assert u == c[i];
      out[i] := u;
      i := i + 1;
    }
    assert out[..] == c;
    ColumnsValue(x, y, 32);
    FoldSame(Num(c));
    squeeze(out);
  }

  /** The inner loops of square and what follows them, for column i. */
  method squareColumn(a: array<u32>, i: nat) returns (u: u32)
    requires a.Length == 32 && i < 32
    requires Loose(a[..])
    ensures u == Column(a[..], a[..], i, 32) <= 0x2000_0000
  {
    ghost var x := a[..];
    SpanBound(x, i, 0, (i + 1) / 2);
    SpanBound(x, i, i + 1, (31 - i) / 2);
    SquareColumn(x, i);
    ColumnBound(x, x, i, 32);
    var low := squareLow(a, i);
    u := squareHigh(a, i, low);
    u := Wrap(2 * u);
    if i % 2 == 0 {
      u := addCentres(a, i / 2, u);
    }
  }

  method squareLow(a: array<u32>, i: nat) returns (u: u32)
    requires a.Length == 32 && i < 32 && Loose(a[..])
    ensures u == Span(a[..], i, 0, (i + 1) / 2)
  {
    ghost var x := a[..];
    var j := 0;
    u := 0;
    assert Span(x, i, 0, 0) == 0;
    hide Span;
    while j < i - j
      invariant 2 * j <= i + 1 && u == Span(x, i, 0, j)
    {
      SpanStep(x, i, 0, j);
      u := Wrap(u + Wrap(a[j] * a[i - j]));
      j := j + 1;
    }
  }

  method squareHigh(a: array<u32>, i: nat, low: u32) returns (u: u32)
    requires a.Length == 32 && i < 32 && Loose(a[..]) && low <= 0x1000_0000
    ensures u == low + Span(a[..], i, i + 1, (31 - i) / 2)
  {
    ghost var x := a[..];
    var j := i + 1;
    u := low;
    assert Span(x, i, i + 1, 0) == 0;
    hide Span;
    while j < i + 32 - j
      invariant i + 1 <= j && 2 * j <= i + 33 && u == low + Span(x, i, i + 1, j - i - 1)
    {
      SpanStep(x, i, i + 1, j - i - 1);
      u := Wrap(u + Wrap(Wrap(38 * a[j]) * a[i + 32 - j]));
      j := j + 1;
    }
  }

  /** The squares that the even column 2h has at its two centres. */
  method addCentres(a: array<u32>, h: nat, v: u32) returns (u: u32)
    requires a.Length == 32 && h < 16 && Loose(a[..]) && v <= 0x2000_0000
    ensures u == v + Term(a[..], a[..], 2 * h, h) + Term(a[..], a[..], 2 * h, h + 16)
  {
    TermBound(a[..], a[..], 2 * h, h);
    TermBound(a[..], a[..], 2 * h, h + 16);
    u := Wrap(v + Wrap(a[h] * a[h]));
    u := Wrap(u + Wrap(Wrap(38 * a[h + 16]) * a[h + 16]));
  }

  method square(out: array<u32>, a: array<u32>)
    requires out.Length == a.Length == 32 && out != a
    requires Loose(a[..])
    modifies out
    ensures Num(out[..]) == Fold(old(Num(Columns(a[..], a[..], 32)))) && Squeezed(out[..])
    ensures Same(Num(out[..]), old(Num(a[..])) * old(Num(a[..])))
  {
    ghost var x, c := a[..], Columns(a[..], a[..], 32);
    var i := 0;
    while i < 32
      invariant i <= 32
      invariant a[..] == x
      invariant forall k :: 0 <= k < i ==> out[k] == c[k] <= 0x2000_0000
    {
      var u := squareColumn(a, i);
      assert u == c[i];
      out[i] := u;
      i := i + 1;
    }
    assert out[..] == c;
    ColumnsValue(x, x, 32);
    FoldSame(Num(c));
    squeeze(out);
  }

  /** Two squeezed vectors for one number are one vector: what square(a) leaves is, limb for limb,
      what mult(a, a) leaves. */
  lemma SquareAgreesWithMult(s: seq<int>, m: seq<int>, a: seq<int>)
    requires |a| == 32 && Squeezed(s) && Squeezed(m)
    requires Num(s) == Fold(Num(Columns(a, a, 32))) == Num(m)
    ensures s == m
  {
    hide Fold, Columns, Value;
    Unique(s, m, 32);
    assert s[..32] == s && m[..32] == m;
  }

  // ---- crv_select

  const ONES: u32 := 0xffff_ffff

  lemma WordPower()
    ensures Pow2(32) == WORD
  {
    assert Pow2(8) == 0x100 && Pow2(16) == 0x1_0000 && Pow2(24) == 0x100_0000;
  }

  lemma MaskFacts(x: nat)
    requires x < WORD
    ensures BitAnd(ONES, x) == x && BitAnd(0, x) == 0
  {
    hide BitAnd, Pow2;
    WordPower();
    AndMask(x, 32);
    AndCommutes(x, ONES);
    AndCommutes(x, 0);
    AndZero(x);
  }

  /** Adding the difference of x and y to y under a mask of all zeros or all ones. */
  lemma MaskedXor(x: u32, y: u32, m: u32)
    requires m == 0 || m == ONES
    ensures BitXor(y, BitAnd(m, BitXor(x, y))) == if m == 0 then y else x
    ensures BitXor(x, BitAnd(m, BitXor(x, y))) == if m == 0 then x else y
  {
    assert BitXor(x, y) < WORD by { WordPower(); XorBound(x, y, 32); }
    MaskFacts(BitXor(x, y));
    XorCancel(x, y); XorCancel(y, x); XorCommutes(x, y);
    XorZero(x); XorZero(y);
  }

  /** The branch-free choice: p takes r and q takes s when b is 0, the other way round when b is 1.
      C runs it once over the 64 limbs of a coordinate pair, here once for each half. */
  method crv_select(p: array<u32>, q: array<u32>, r: array<u32>, s: array<u32>, b: u32)
    requires p.Length == q.Length == r.Length == s.Length == 32 && b <= 1
    requires p != q && p != r && p != s && q != r && q != s
    modifies p, q
    ensures p[..] == if b == 0 then r[..] else s[..]
    ensures q[..] == if b == 0 then s[..] else r[..]
  {
    var bminus1 := Wrap(b as int - 1);
    var j := 0;
    while j < 32
      invariant j <= 32
      invariant p[..j] == if b == 0 then r[..j] else s[..j]
      invariant q[..j] == if b == 0 then s[..j] else r[..j]
    {
      var t := BitAnd(bminus1, BitXor(r[j], s[j]));
      MaskedXor(r[j], s[j], bminus1);
      p[j] := BitXor(s[j], t);
      q[j] := BitXor(r[j], t);
      j := j + 1;
    }
    assert p[..] == p[..32] && q[..] == q[..32] && r[..] == r[..32] && s[..] == s[..32];
  }

  // ---- freeze

  /** What is stored when each limb is cut to a byte. */
  ghost function LowBytes(s: seq<int>): (r: seq<int>)
    requires |s| == 32
    ensures |r| == 32
  {
    seq(32, i requires 0 <= i < 32 => s[i] % 256)
  }

  method freeze(a: array<u32>)
    requires a.Length == 32 && Squeezed(a[..])
    modifies a
    ensures Num(LowBytes(a[..])) == old(Num(a[..])) % P
    ensures a[31] < 256 <==> old(Num(a[..])) < P
  {
    hide Num, LowBytes, MinusP, Within;
    ghost var x := a[..];
    var aorig := duplicate(a);
    var minusp := newMinusp();
    MinusPNum();
    add(a, a, minusp);
    ghost var y := a[..];
    var negative := Wrap(0 - (a[31] as int / 128 % 2));
    restore(a, aorig, negative);
    FrozenValue(x, y, a[..]);
  }

  /** The first loop of freeze. */
  method duplicate(a: array<u32>) returns (aorig: array<u32>)
    requires a.Length == 32
    ensures fresh(aorig) && aorig.Length == 32 && aorig[..] == a[..]
  {
    aorig := new u32[32];
    var j := 0;
    while j < 32
      invariant j <= 32 && aorig[..j] == a[..j]
    {
      aorig[j] := a[j];
      j := j + 1;
    }
    assert aorig[..] == aorig[..32] == a[..32] == a[..];
  }

  /** The last loop of freeze: aorig comes back where the mask is all ones. */
  method restore(a: array<u32>, aorig: array<u32>, negative: u32)
    requires a.Length == aorig.Length == 32 && a != aorig
    requires negative == 0 || negative == ONES
    modifies a
    ensures a[..] == if negative == 0 then old(a[..]) else aorig[..]
  {
    var j := 0;
    while j < 32
      invariant j <= 32
      invariant forall k :: 0 <= k < j ==> a[k] == if negative == 0 then old(a[k]) else aorig[k]
      invariant forall k :: j <= k < 32 ==> a[k] == old(a[k])
    {
      MaskedXor(aorig[j], a[j], negative);
      a[j] := BitXor(a[j], BitAnd(negative, BitXor(aorig[j], a[j])));
      j := j + 1;
    }
  }

  /** The constant minusp: 2^256 - p, as the limbs 19, 0, ..., 0, 128. */
  method newMinusp() returns (m: array<u32>)
    ensures fresh(m) && m.Length == 32 && m[..] == MinusP()
  {
    m := new u32[32](i => 0);
    m[0], m[31] := 19, 128;
  }

  ghost function MinusP(): (s: seq<int>)
    ensures |s| == 32
  {
    seq(32, i => if i == 0 then 19 else if i == 31 then 128 else 0)
  }

  lemma MinusPNum()
    ensures Num(MinusP()) == 19 + TWO255 && Squeezed(MinusP())
  {
    var s := MinusP();
    ValueUp(seq(31, i => 0), s, 30);
    ValueBound(seq(31, i => 0), 0, 30);
    Powers();
  }

  /** Bit 7 of the top limb of x - p + 2^256 tells whether x was below p. The result is a vector of bytes
      exactly then; otherwise 256 is left in the top limb, which the store drops. */
  lemma FrozenValue(x: seq<int>, y: seq<int>, r: seq<int>)
    requires Squeezed(x) && Loose(y)
    requires Num(y) == Num(x) + 19 + TWO255
    requires r == if y[31] / 128 % 2 == 1 then x else y
    ensures Num(LowBytes(r)) == Num(x) % P
    ensures r[31] < 256 <==> Num(x) < P
  {
    hide Num, LowBytes;
    ByteStore(x);
    ByteStore(y);
    TopBounds(x);
    TopBounds(y);
    assert Num(x) < P ==> 128 <= y[31] <= 255 && x[31] <= 127;
    assert Num(x) >= P ==> 256 <= y[31] <= 257;
    if Num(x) >= P { Remainder(Num(x), P, 1, Num(x) - P); }
  }

  /** The top limb bounds the number. */
  lemma TopBounds(s: seq<int>)
    requires Loose(s)
    ensures s[31] * Pow256(31) <= Num(s) < (s[31] + 1) * Pow256(31) && Pow256(31) * 128 == TWO255
    ensures Pow256(31) == 0x100000000000000000000000000000000000000000000000000000000000000
  {
    Powers();
    ValueBound(s, 255, 31);
    Distribute(s[31], 1, Pow256(31));
  }

  /** The limbs of p itself, a squeezed vector that freeze leaves with 256 in the top limb. */
  ghost function Modulus(): (s: seq<int>)
    ensures |s| == 32
  {
    seq(32, i => if i == 0 then 237 else if i == 31 then 127 else 255)
  }

  /** What freeze makes of it: only the top limb, with 256. */
  ghost function Leftover(): (s: seq<int>)
    ensures |s| == 32
  {
    seq(32, i => if i == 31 then 256 else 0)
  }

  /** The vector for p is squeezed, and adding 19 + 2^255 leaves bit 7 of its top limb clear, so the vector
      with 256 in it stays. */
  lemma NotCanonical()
    ensures Squeezed(Modulus()) && Num(Modulus()) == P
    ensures Loose(Leftover()) && Num(Leftover()) == P + 19 + TWO255 && Leftover()[31] / 128 % 2 == 0
  {
    hide Num;
    ModulusNum();
    LeftoverNum();
    assert Leftover()[31] == 256;
  }

  lemma LeftoverNum()
    ensures Num(Leftover()) == 2 * TWO255
  {
    ValueBound(Leftover(), 0, 31);
    Powers();
  }

  lemma ModulusNum()
    ensures Num(Modulus()) == P
  {
    var w := seq(32, i => if i == 0 then 256 else 255);
    AllOnes(w, 32);
    ValueLinear(w, Modulus(), 1, MinusP(), 32);
    MinusPNum();
    Powers();
  }

  lemma {:induction false} AllOnes(w: seq<int>, n: nat)
    requires 0 < n <= |w| && w[0] == 256 && forall i :: 0 < i < n ==> w[i] == 255
    ensures Value(w, n) == Pow256(n)
  {
    if n > 1 {
      AllOnes(w, n - 1);
      assert 255 * Pow256(n - 1) + Pow256(n - 1) == 256 * Pow256(n - 1);
    } else {
      assert Value(w, 0) == 0 && Pow256(0) == 1;
    }
  }

  lemma ByteStore(s: seq<int>)
    requires Loose(s)
    ensures Num(LowBytes(s)) == Num(s) - if s[31] < 256 then 0 else 2 * TWO255
  {
    Powers();
    ValuePrefix(s, LowBytes(s), 31);
    Distribute(s[31], -256, Pow256(31));
  }
}
