/** The block cipher of FIPS 197, on states of four columns of four bytes, and its inverse. */
module AesSpec {
  import opened AesTables

  // ---- The field of 256 elements (FIPS 197, section 4.2)

  function XTime(x: bv8): bv8 { (x << 1) ^ (if x & 0x80 == 0 then 0 else 0x1b) }

  /** The product of x and y, by the bits of x from the top down. */
  function Mul(x: bv8, y: bv8): bv8 {
    Step(x, 1, y, Step(x, 2, y, Step(x, 4, y, Step(x, 8, y, Step(x, 16, y, Step(x, 32, y, Step(x, 64, y,
    Step(x, 128, y, 0))))))))
  }

  function Step(x: bv8, mask: bv8, y: bv8, sum: bv8): bv8 { XTime(sum) ^ (if x & mask != 0 then y else 0) }

  /** XTime without a choice. */
  function Doubled(x: bv8): bv8 {
    var h := x >> 7;
    (x << 1) ^ h ^ (h << 1) ^ (h << 3) ^ (h << 4)
  }

  lemma XTimeDoubled(x: bv8)
    ensures XTime(x) == Doubled(x)
  {
  }

  lemma XTimeSum(x: bv8, y: bv8)
    ensures XTime(x ^ y) == XTime(x) ^ XTime(y)
  {
    hide XTime;
    XTimeDoubled(x);
    XTimeDoubled(y);
    XTimeDoubled(x ^ y);
  }

  /** Mul(x, y) again, in the form without choices. */
  function Product(x: bv8, y: bv8): bv8 {
    Stride(x, 1, y, Stride(x, 2, y, Stride(x, 4, y, Stride(x, 8, y, Stride(x, 16, y, Stride(x, 32, y,
    Stride(x, 64, y, Stride(x, 128, y, 0))))))))
  }

  function Stride(x: bv8, mask: bv8, y: bv8, sum: bv8): bv8 {
    Doubled(sum) ^ (if x & mask != 0 then y else 0)
  }

  lemma StepIsStride(x: bv8, mask: bv8, y: bv8, sum: bv8)
    ensures Step(x, mask, y, sum) == Stride(x, mask, y, sum)
  {
    hide XTime, Doubled;
    XTimeDoubled(sum);
  }

  lemma MulProduct(x: bv8, y: bv8)
    ensures Mul(x, y) == Product(x, y)
  {
    hide Step, Stride;
    StepIsStride(x, 128, y, 0);
    var t := Step(x, 128, y, 0);
    StepIsStride(x, 64, y, t);
    t := Step(x, 64, y, t);
    StepIsStride(x, 32, y, t);
    t := Step(x, 32, y, t);
    StepIsStride(x, 16, y, t);
    t := Step(x, 16, y, t);
    StepIsStride(x, 8, y, t);
    t := Step(x, 8, y, t);
    StepIsStride(x, 4, y, t);
    t := Step(x, 4, y, t);
    StepIsStride(x, 2, y, t);
    t := Step(x, 2, y, t);
    StepIsStride(x, 1, y, t);
  }

  function Times2(x: bv8): bv8 { Doubled(x) }
  function Times3(x: bv8): bv8 { Doubled(x) ^ x }
  function Times9(x: bv8): bv8 { Doubled(Doubled(Doubled(x))) ^ x }
  function TimesB(x: bv8): bv8 { Doubled(Doubled(Doubled(x))) ^ Doubled(x) ^ x }
  function TimesD(x: bv8): bv8 { Doubled(Doubled(Doubled(x))) ^ Doubled(Doubled(x)) ^ x }
  function TimesE(x: bv8): bv8 { Doubled(Doubled(Doubled(x))) ^ Doubled(Doubled(x)) ^ Doubled(x) }

  lemma Multiples23(x: bv8)
    ensures Mul(2, x) == Times2(x) && Mul(3, x) == Times3(x)
  {
    hide Mul, Step;
    MulProduct(2, x);
    MulProduct(3, x);
  }

  lemma Multiples9B(x: bv8)
    ensures Mul(9, x) == Times9(x) && Mul(11, x) == TimesB(x)
  {
    hide Mul, Step;
    MulProduct(9, x);
    MulProduct(11, x);
  }

  lemma MultiplesDE(x: bv8)
    ensures Mul(13, x) == TimesD(x) && Mul(14, x) == TimesE(x)
  {
    hide Mul, Step;
    MulProduct(13, x);
    MulProduct(14, x);
  }

  // ---- The S-box (section 5.1.1)

  function Sub(x: bv8): bv8 { (Te4(x) & 0xff) as bv8 }

  function InvSub(x: bv8): bv8 { (Td4(x) & 0xff) as bv8 }

  function Affine(z: bv8): bv8 {
    z ^ ((z << 1) | (z >> 7)) ^ ((z << 2) | (z >> 6)) ^ ((z << 3) | (z >> 5)) ^ ((z << 4) | (z >> 4)) ^ 0x63
  }

  function Unaffine(y: bv8): bv8 {
    ((y << 1) | (y >> 7)) ^ ((y << 3) | (y >> 5)) ^ ((y << 6) | (y >> 2)) ^ 0x05
  }

  predicate Inverts(x: bv8, z: bv8) { Product(x, z) == (if x == 0 then 0 else 1) }

  lemma SubInverts(x: bv8)
    ensures Inverts(x, Unaffine(Sub(x)))
  {
  }

  lemma Unaffined(y: bv8)
    ensures Affine(Unaffine(y)) == y
    ensures Unaffine(0x63) == 0 && Sub(0) == 0x63
  {
  }

  /** The table is the S-box of the standard: the affine map of the inverse of x, and 0 for 0. */
  lemma SBox(x: bv8)
    ensures exists z :: Sub(x) == Affine(z) && (if x == 0 then z == 0 else Mul(x, z) == 1)
  {
    hide Sub, Affine, Unaffine, Mul, Product;
    var z := Unaffine(Sub(x));
    Unaffined(Sub(x));
    SubInverts(x);
    MulProduct(x, z);
  }

  lemma InvSubSub(x: bv8)
    ensures InvSub(Sub(x)) == x
  {
  }

  lemma SubInvSub(x: bv8)
    ensures Sub(InvSub(x)) == x
  {
  }

  // ---- Columns

  datatype Column = Column(a: bv8, b: bv8, c: bv8, d: bv8)

  function AddColumn(p: Column, q: Column): Column {
    Column(Xor(p.a, q.a), Xor(p.b, q.b), Xor(p.c, q.c), Xor(p.d, q.d))
  }

  function SubColumn(p: Column): Column { Column(Sub(p.a), Sub(p.b), Sub(p.c), Sub(p.d)) }

  function InvSubColumn(p: Column): Column { Column(InvSub(p.a), InvSub(p.b), InvSub(p.c), InvSub(p.d)) }

  /** Section 5.1.3. */
  function MixColumn(p: Column): Column {
    Column(Sum(Mul(2, p.a), Mul(3, p.b), p.c, p.d), Sum(p.a, Mul(2, p.b), Mul(3, p.c), p.d),
           Sum(p.a, p.b, Mul(2, p.c), Mul(3, p.d)), Sum(Mul(3, p.a), p.b, p.c, Mul(2, p.d)))
  }

  /** Section 5.3.3. */
  function InvMixColumn(p: Column): Column {
    Column(Sum(Mul(14, p.a), Mul(11, p.b), Mul(13, p.c), Mul(9, p.d)),
           Sum(Mul(9, p.a), Mul(14, p.b), Mul(11, p.c), Mul(13, p.d)),
           Sum(Mul(13, p.a), Mul(9, p.b), Mul(14, p.c), Mul(11, p.d)),
           Sum(Mul(11, p.a), Mul(13, p.b), Mul(9, p.c), Mul(14, p.d)))
  }

  function Xor(x: bv8, y: bv8): bv8 { x ^ y }

  function Sum(a: bv8, b: bv8, c: bv8, d: bv8): bv8 { Xor(Xor(a, b), Xor(c, d)) }

  lemma StepSum(k: bv8, mask: bv8, x: bv8, y: bv8, s: bv8, t: bv8)
    ensures Step(k, mask, Xor(x, y), Xor(s, t)) == Xor(Step(k, mask, x, s), Step(k, mask, y, t))
  {
    hide XTime;
    XTimeSum(s, t);
  }

  lemma MulXor(k: bv8, x: bv8, y: bv8)
    ensures Mul(k, Xor(x, y)) == Xor(Mul(k, x), Mul(k, y))
  {
    assert Xor(0, 0) == 0;
    hide Step, Xor;
    StepSum(k, 128, x, y, 0, 0);
    var s, t := Step(k, 128, x, 0), Step(k, 128, y, 0);
    StepSum(k, 64, x, y, s, t);
    s, t := Step(k, 64, x, s), Step(k, 64, y, t);
    StepSum(k, 32, x, y, s, t);
    s, t := Step(k, 32, x, s), Step(k, 32, y, t);
    StepSum(k, 16, x, y, s, t);
    s, t := Step(k, 16, x, s), Step(k, 16, y, t);
    StepSum(k, 8, x, y, s, t);
    s, t := Step(k, 8, x, s), Step(k, 8, y, t);
    StepSum(k, 4, x, y, s, t);
    s, t := Step(k, 4, x, s), Step(k, 4, y, t);
    StepSum(k, 2, x, y, s, t);
    s, t := Step(k, 2, x, s), Step(k, 2, y, t);
    StepSum(k, 1, x, y, s, t);
  }

  lemma XorPairs(a: bv8, b: bv8, c: bv8, d: bv8)
    ensures Xor(Xor(a, b), Xor(c, d)) == Xor(Xor(a, c), Xor(b, d))
  {
    hide Xor;
    XorAssociates(a, b, Xor(c, d));
    XorAssociates(b, c, d);
    XorAssociates(c, b, d);
    XorAssociates(a, c, Xor(b, d));
    XorCommutes(b, c);
  }

  lemma XorAssociates(x: bv8, y: bv8, z: bv8)
    ensures Xor(Xor(x, y), z) == Xor(x, Xor(y, z))
  {
  }

  lemma XorCommutes(x: bv8, y: bv8)
    ensures Xor(x, y) == Xor(y, x)
  {
  }

  lemma MulSum(k: bv8, a: bv8, b: bv8, c: bv8, d: bv8)
    ensures Mul(k, Sum(a, b, c, d)) == Sum(Mul(k, a), Mul(k, b), Mul(k, c), Mul(k, d))
  {
    hide Mul, Xor;
    MulXor(k, Xor(a, b), Xor(c, d));
    MulXor(k, a, b);
    MulXor(k, c, d);
  }

  lemma SumOfPairs(a0: bv8, a1: bv8, a2: bv8, a3: bv8, b0: bv8, b1: bv8, b2: bv8, b3: bv8)
    ensures Xor(Sum(a0, a1, a2, a3), Sum(b0, b1, b2, b3))
         == Sum(Xor(a0, b0), Xor(a1, b1), Xor(a2, b2), Xor(a3, b3))
  {
    hide Xor;
    XorPairs(Xor(a0, a1), Xor(a2, a3), Xor(b0, b1), Xor(b2, b3));
    XorPairs(a0, a1, b0, b1);
    XorPairs(a2, a3, b2, b3);
  }

  /** A four by four square of bytes has one sum, by rows and by columns. */
  lemma Square(a0: bv8, a1: bv8, a2: bv8, a3: bv8, b0: bv8, b1: bv8, b2: bv8, b3: bv8,
               c0: bv8, c1: bv8, c2: bv8, c3: bv8, d0: bv8, d1: bv8, d2: bv8, d3: bv8)
    ensures Sum(Sum(a0, a1, a2, a3), Sum(b0, b1, b2, b3), Sum(c0, c1, c2, c3), Sum(d0, d1, d2, d3))
         == Sum(Sum(a0, b0, c0, d0), Sum(a1, b1, c1, d1), Sum(a2, b2, c2, d2), Sum(a3, b3, c3, d3))
  {
    hide Xor;
    SumOfPairs(a0, a1, a2, a3, b0, b1, b2, b3);
    SumOfPairs(c0, c1, c2, c3, d0, d1, d2, d3);
    SumOfPairs(Xor(a0, b0), Xor(a1, b1), Xor(a2, b2), Xor(a3, b3),
               Xor(c0, d0), Xor(c1, d1), Xor(c2, d2), Xor(c3, d3));
  }

  /** An entry of the inverse matrix times the matrix, on a byte: the matrix has the column 2, 1, 1, 3
      up to rotation. */
  function Entry(k: bv8, l: bv8, m: bv8, n: bv8, x: bv8): bv8 {
    Sum(Mul(k, Mul(2, x)), Mul(l, x), Mul(m, x), Mul(n, Mul(3, x)))
  }

  lemma Entries(x: bv8)
    ensures Entry(14, 11, 13, 9, x) == x && Entry(9, 14, 11, 13, x) == 0
    ensures Entry(13, 9, 14, 11, x) == 0 && Entry(11, 13, 9, 14, x) == 0
  {
    hide Mul, Step;
    Multiples23(x);
    Multiples9B(x);
    MultiplesDE(x);
    Multiples9B(Times2(x));
    MultiplesDE(Times2(x));
    Multiples9B(Times3(x));
    MultiplesDE(Times3(x));
  }

  lemma Rotation(a: bv8, b: bv8, c: bv8, d: bv8)
    ensures Sum(a, b, c, d) == Sum(b, c, d, a)
  {
    hide Xor;
    XorPairs(a, b, c, d);
    XorCommutes(a, c);
    XorPairs(c, a, b, d);
    XorCommutes(Xor(c, b), Xor(a, d));
    XorCommutes(a, d);
    XorCommutes(b, c);
    XorCommutes(Xor(b, c), Xor(d, a));
  }

  lemma Rotations(a: bv8, b: bv8, c: bv8, d: bv8)
    ensures Sum(a, b, c, d) == Sum(b, c, d, a) == Sum(c, d, a, b) == Sum(d, a, b, c)
  {
    hide Sum;
    Rotation(a, b, c, d);
    Rotation(b, c, d, a);
    Rotation(c, d, a, b);
  }

  /** One row of the inverse matrix, on a mixed column. */
  lemma Row(k: bv8, l: bv8, m: bv8, n: bv8, p: Column)
    ensures Sum(Mul(k, MixColumn(p).a), Mul(l, MixColumn(p).b), Mul(m, MixColumn(p).c), Mul(n, MixColumn(p).d))
         == Sum(Entry(k, l, m, n, p.a), Entry(l, m, n, k, p.b), Entry(m, n, k, l, p.c), Entry(n, k, l, m, p.d))
  {
    hide Mul, Sum;
    var a, b, c, d := p.a, p.b, p.c, p.d;
    MulSum(k, Mul(2, a), Mul(3, b), c, d);
    MulSum(l, a, Mul(2, b), Mul(3, c), d);
    MulSum(m, a, b, Mul(2, c), Mul(3, d));
    MulSum(n, Mul(3, a), b, c, Mul(2, d));
    Square(Mul(k, Mul(2, a)), Mul(k, Mul(3, b)), Mul(k, c), Mul(k, d),
           Mul(l, a), Mul(l, Mul(2, b)), Mul(l, Mul(3, c)), Mul(l, d),
           Mul(m, a), Mul(m, b), Mul(m, Mul(2, c)), Mul(m, Mul(3, d)),
           Mul(n, Mul(3, a)), Mul(n, b), Mul(n, c), Mul(n, Mul(2, d)));
    Rotations(Mul(k, Mul(3, b)), Mul(l, Mul(2, b)), Mul(m, b), Mul(n, b));
    Rotations(Mul(k, c), Mul(l, Mul(3, c)), Mul(m, Mul(2, c)), Mul(n, c));
    Rotations(Mul(k, d), Mul(l, d), Mul(m, Mul(3, d)), Mul(n, Mul(2, d)));
  }

  /** InvMixColumns undoes MixColumns. */
  lemma InvMixMix(p: Column)
    ensures InvMixColumn(MixColumn(p)) == p
  {
    assert forall x :: Sum(x, 0, 0, 0) == x && Sum(0, x, 0, 0) == x && Sum(0, 0, x, 0) == x && Sum(0, 0, 0, x) == x;
    hide Sum, Mul, Entry, MixColumn;
    Row(14, 11, 13, 9, p);
    Row(9, 14, 11, 13, p);
    Row(13, 9, 14, 11, p);
    Row(11, 13, 9, 14, p);
    Entries(p.a);
    Entries(p.b);
    Entries(p.c);
    Entries(p.d);
  }

  lemma MulPairs(k: bv8, l: bv8, m: bv8, n: bv8, p: Column, q: Column)
    ensures Sum(Mul(k, Xor(p.a, q.a)), Mul(l, Xor(p.b, q.b)), Mul(m, Xor(p.c, q.c)), Mul(n, Xor(p.d, q.d)))
         == Xor(Sum(Mul(k, p.a), Mul(l, p.b), Mul(m, p.c), Mul(n, p.d)),
                Sum(Mul(k, q.a), Mul(l, q.b), Mul(m, q.c), Mul(n, q.d)))
  {
    hide Sum, Mul, Xor;
    MulXor(k, p.a, q.a);
    MulXor(l, p.b, q.b);
    MulXor(m, p.c, q.c);
    MulXor(n, p.d, q.d);
    SumOfPairs(Mul(k, p.a), Mul(l, p.b), Mul(m, p.c), Mul(n, p.d),
               Mul(k, q.a), Mul(l, q.b), Mul(m, q.c), Mul(n, q.d));
  }

  lemma InvMixAdd(p: Column, q: Column)
    ensures InvMixColumn(AddColumn(p, q)) == AddColumn(InvMixColumn(p), InvMixColumn(q))
  {
    hide Sum, Mul, Xor;
    MulPairs(14, 11, 13, 9, p, q);
    MulPairs(9, 14, 11, 13, p, q);
    MulPairs(13, 9, 14, 11, p, q);
    MulPairs(11, 13, 9, 14, p, q);
  }

  lemma AddTwice(p: Column, q: Column)
    ensures AddColumn(AddColumn(p, q), q) == p
  {
  }

  // ---- States

  datatype State = State(s0: Column, s1: Column, s2: Column, s3: Column)

  /** AddRoundKey (section 5.1.4), and also the sum of blocks in cipher block chaining. */
  function Add(s: State, k: State): State {
    State(AddColumn(s.s0, k.s0), AddColumn(s.s1, k.s1), AddColumn(s.s2, k.s2), AddColumn(s.s3, k.s3))
  }

  function SubBytes(s: State): State {
    State(SubColumn(s.s0), SubColumn(s.s1), SubColumn(s.s2), SubColumn(s.s3))
  }

  function InvSubBytes(s: State): State {
    State(InvSubColumn(s.s0), InvSubColumn(s.s1), InvSubColumn(s.s2), InvSubColumn(s.s3))
  }

  /** Row r of the state moves r places to the left (section 5.1.2). */
  function ShiftRows(s: State): State {
    State(Column(s.s0.a, s.s1.b, s.s2.c, s.s3.d), Column(s.s1.a, s.s2.b, s.s3.c, s.s0.d),
          Column(s.s2.a, s.s3.b, s.s0.c, s.s1.d), Column(s.s3.a, s.s0.b, s.s1.c, s.s2.d))
  }

  function InvShiftRows(s: State): State {
    State(Column(s.s0.a, s.s3.b, s.s2.c, s.s1.d), Column(s.s1.a, s.s0.b, s.s3.c, s.s2.d),
          Column(s.s2.a, s.s1.b, s.s0.c, s.s3.d), Column(s.s3.a, s.s2.b, s.s1.c, s.s0.d))
  }

  function MixColumns(s: State): State {
    State(MixColumn(s.s0), MixColumn(s.s1), MixColumn(s.s2), MixColumn(s.s3))
  }

  function InvMixColumns(s: State): State {
    State(InvMixColumn(s.s0), InvMixColumn(s.s1), InvMixColumn(s.s2), InvMixColumn(s.s3))
  }

  /** The state after the initial key addition and i full rounds. */
  ghost function Rounds(input: State, keys: seq<State>, i: nat): State
    requires i < |keys|
  {
    if i == 0 then Add(input, keys[0])
    else Add(MixColumns(ShiftRows(SubBytes(Rounds(input, keys, i - 1)))), keys[i])
  }

  /** Cipher (section 5.1). */
  ghost function Cipher(input: State, keys: seq<State>): State
    requires |keys| >= 2
  {
    Add(ShiftRows(SubBytes(Rounds(input, keys, |keys| - 2))), keys[|keys| - 1])
  }

  ghost function InvRounds(input: State, keys: seq<State>, i: nat): State
    requires i < |keys|
  {
    if i == 0 then Add(input, keys[0])
    else Add(InvMixColumns(InvShiftRows(InvSubBytes(InvRounds(input, keys, i - 1)))), keys[i])
  }

  /** EqInvCipher (section 5.3.5), with its round keys in the order in which it uses them. */
  ghost function EqInvCipher(input: State, keys: seq<State>): State
    requires |keys| >= 2
  {
    Add(InvShiftRows(InvSubBytes(InvRounds(input, keys, |keys| - 2))), keys[|keys| - 1])
  }

  /** The round keys of the equivalent inverse cipher: in reverse order, and all but the outer two
      through InvMixColumns. */
  ghost predicate InverseKeys(dec: seq<State>, enc: seq<State>) {
    |dec| == |enc| >= 2 && dec[0] == enc[|enc| - 1] && dec[|enc| - 1] == enc[0] &&
    forall i :: 0 < i < |enc| - 1 ==> dec[i] == InvMixColumns(enc[|enc| - 1 - i])
  }

  // ---- Decryption undoes encryption

  lemma InvMixColumnsFacts(s: State, k: State)
    ensures InvMixColumns(MixColumns(s)) == s
    ensures InvMixColumns(Add(s, k)) == Add(InvMixColumns(s), InvMixColumns(k))
    ensures Add(Add(s, k), k) == s
  {
    hide InvMixColumn, MixColumn, AddColumn;
    InvMixMix(s.s0);
    InvMixMix(s.s1);
    InvMixMix(s.s2);
    InvMixMix(s.s3);
    InvMixAdd(s.s0, k.s0);
    InvMixAdd(s.s1, k.s1);
    InvMixAdd(s.s2, k.s2);
    InvMixAdd(s.s3, k.s3);
    AddTwice(s.s0, k.s0);
    AddTwice(s.s1, k.s1);
    AddTwice(s.s2, k.s2);
    AddTwice(s.s3, k.s3);
  }

  lemma InvSubColumnSub(p: Column)
    ensures InvSubColumn(SubColumn(p)) == p
  {
    hide Sub, InvSub;
    InvSubSub(p.a);
    InvSubSub(p.b);
    InvSubSub(p.c);
    InvSubSub(p.d);
  }

  lemma InvShiftSub(s: State)
    ensures InvShiftRows(InvSubBytes(ShiftRows(SubBytes(s)))) == s
  {
    hide Sub, InvSub;
    InvSubColumnSub(s.s0);
    InvSubColumnSub(s.s1);
    InvSubColumnSub(s.s2);
    InvSubColumnSub(s.s3);
  }

  /** After i rounds the inverse cipher has the state that the cipher had before its round Nr - i. */
  lemma {:induction false} InvRoundsUndo(input: State, enc: seq<State>, dec: seq<State>, i: nat)
    requires InverseKeys(dec, enc) && i < |enc| - 1
    ensures InvRounds(Cipher(input, enc), dec, i) == ShiftRows(SubBytes(Rounds(input, enc, |enc| - 2 - i)))
  {
    hide Add, SubBytes, InvSubBytes, ShiftRows, InvShiftRows, MixColumns, InvMixColumns;
    var n := |enc| - 1;
    var e := Rounds(input, enc, n - 1 - i);
    if i == 0 {
      InvMixColumnsFacts(ShiftRows(SubBytes(e)), enc[n]);
    } else {
      InvRoundsUndo(input, enc, dec, i - 1);
      var f := Rounds(input, enc, n - i);
      InvShiftSub(f);
      InvMixColumnsFacts(MixColumns(ShiftRows(SubBytes(e))), enc[n - i]);
      InvMixColumnsFacts(ShiftRows(SubBytes(e)), enc[n - i]);
      InvMixColumnsFacts(InvMixColumns(MixColumns(ShiftRows(SubBytes(e)))), InvMixColumns(enc[n - i]));
    }
  }

  /** For any round keys and any block the equivalent inverse cipher undoes the cipher. */
  lemma InverseCipher(input: State, enc: seq<State>, dec: seq<State>)
    requires InverseKeys(dec, enc)
    ensures EqInvCipher(Cipher(input, enc), dec) == input
  {
    hide Cipher, Add, AddColumn, SubBytes, InvSubBytes, ShiftRows, InvShiftRows, MixColumns, InvMixColumns;
    InvRoundsUndo(input, enc, dec, |enc| - 2);
    var e := Rounds(input, enc, 0);
    assert e == Add(input, enc[0]);
    InvShiftSub(e);
    InvMixColumnsFacts(input, enc[0]);
  }
}
