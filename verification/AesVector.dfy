/** The example of FIPS 197, appendix C.1: the key 00 01 ... 0f and the block 00 11 ... ff, by the round keys and
    the states at the start of each round. */
module AesVector {
  import opened AesSpec
  import opened Aes
  import opened AesKeys

  const K0 := State(Column(0x00, 0x01, 0x02, 0x03), Column(0x04, 0x05, 0x06, 0x07),
                    Column(0x08, 0x09, 0x0a, 0x0b), Column(0x0c, 0x0d, 0x0e, 0x0f))
  const K1 := State(Column(0xd6, 0xaa, 0x74, 0xfd), Column(0xd2, 0xaf, 0x72, 0xfa),
                    Column(0xda, 0xa6, 0x78, 0xf1), Column(0xd6, 0xab, 0x76, 0xfe))
  const K2 := State(Column(0xb6, 0x92, 0xcf, 0x0b), Column(0x64, 0x3d, 0xbd, 0xf1),
                    Column(0xbe, 0x9b, 0xc5, 0x00), Column(0x68, 0x30, 0xb3, 0xfe))
  const K3 := State(Column(0xb6, 0xff, 0x74, 0x4e), Column(0xd2, 0xc2, 0xc9, 0xbf),
                    Column(0x6c, 0x59, 0x0c, 0xbf), Column(0x04, 0x69, 0xbf, 0x41))
  const K4 := State(Column(0x47, 0xf7, 0xf7, 0xbc), Column(0x95, 0x35, 0x3e, 0x03),
                    Column(0xf9, 0x6c, 0x32, 0xbc), Column(0xfd, 0x05, 0x8d, 0xfd))
  const K5 := State(Column(0x3c, 0xaa, 0xa3, 0xe8), Column(0xa9, 0x9f, 0x9d, 0xeb),
                    Column(0x50, 0xf3, 0xaf, 0x57), Column(0xad, 0xf6, 0x22, 0xaa))
  const K6 := State(Column(0x5e, 0x39, 0x0f, 0x7d), Column(0xf7, 0xa6, 0x92, 0x96),
                    Column(0xa7, 0x55, 0x3d, 0xc1), Column(0x0a, 0xa3, 0x1f, 0x6b))
  const K7 := State(Column(0x14, 0xf9, 0x70, 0x1a), Column(0xe3, 0x5f, 0xe2, 0x8c),
                    Column(0x44, 0x0a, 0xdf, 0x4d), Column(0x4e, 0xa9, 0xc0, 0x26))
  const K8 := State(Column(0x47, 0x43, 0x87, 0x35), Column(0xa4, 0x1c, 0x65, 0xb9),
                    Column(0xe0, 0x16, 0xba, 0xf4), Column(0xae, 0xbf, 0x7a, 0xd2))
  const K9 := State(Column(0x54, 0x99, 0x32, 0xd1), Column(0xf0, 0x85, 0x57, 0x68),
                    Column(0x10, 0x93, 0xed, 0x9c), Column(0xbe, 0x2c, 0x97, 0x4e))
  const K10 := State(Column(0x13, 0x11, 0x1d, 0x7f), Column(0xe3, 0x94, 0x4a, 0x17),
                     Column(0xf3, 0x07, 0xa7, 0x8b), Column(0x4d, 0x2b, 0x30, 0xc5))
  const P := State(Column(0x00, 0x11, 0x22, 0x33), Column(0x44, 0x55, 0x66, 0x77),
                   Column(0x88, 0x99, 0xaa, 0xbb), Column(0xcc, 0xdd, 0xee, 0xff))
  const S1 := State(Column(0x00, 0x10, 0x20, 0x30), Column(0x40, 0x50, 0x60, 0x70),
                    Column(0x80, 0x90, 0xa0, 0xb0), Column(0xc0, 0xd0, 0xe0, 0xf0))
  const S2 := State(Column(0x89, 0xd8, 0x10, 0xe8), Column(0x85, 0x5a, 0xce, 0x68),
                    Column(0x2d, 0x18, 0x43, 0xd8), Column(0xcb, 0x12, 0x8f, 0xe4))
  const S3 := State(Column(0x49, 0x15, 0x59, 0x8f), Column(0x55, 0xe5, 0xd7, 0xa0),
                    Column(0xda, 0xca, 0x94, 0xfa), Column(0x1f, 0x0a, 0x63, 0xf7))
  const S4 := State(Column(0xfa, 0x63, 0x6a, 0x28), Column(0x25, 0xb3, 0x39, 0xc9),
                    Column(0x40, 0x66, 0x8a, 0x31), Column(0x57, 0x24, 0x4d, 0x17))
  const S5 := State(Column(0x24, 0x72, 0x40, 0x23), Column(0x69, 0x66, 0xb3, 0xfa),
                    Column(0x6e, 0xd2, 0x75, 0x32), Column(0x88, 0x42, 0x5b, 0x6c))
  const S6 := State(Column(0xc8, 0x16, 0x77, 0xbc), Column(0x9b, 0x7a, 0xc9, 0x3b),
                    Column(0x25, 0x02, 0x79, 0x92), Column(0xb0, 0x26, 0x19, 0x96))
  const S7 := State(Column(0xc6, 0x2f, 0xe1, 0x09), Column(0xf7, 0x5e, 0xed, 0xc3),
                    Column(0xcc, 0x79, 0x39, 0x5d), Column(0x84, 0xf9, 0xcf, 0x5d))
  const S8 := State(Column(0xd1, 0x87, 0x6c, 0x0f), Column(0x79, 0xc4, 0x30, 0x0a),
                    Column(0xb4, 0x55, 0x94, 0xad), Column(0xd6, 0x6f, 0xf4, 0x1f))
  const S9 := State(Column(0xfd, 0xe3, 0xba, 0xd2), Column(0x05, 0xe5, 0xd0, 0xd7),
                    Column(0x35, 0x47, 0x96, 0x4e), Column(0xf1, 0xfe, 0x37, 0xf1))
  const S10 := State(Column(0xbd, 0x6e, 0x7c, 0x3d), Column(0xf2, 0xb5, 0x77, 0x9e),
                     Column(0x0b, 0x61, 0x21, 0x6e), Column(0x8b, 0x10, 0xb6, 0x89))
  const C := State(Column(0x69, 0xc4, 0xe0, 0xd8), Column(0x6a, 0x7b, 0x04, 0x30),
                   Column(0xd8, 0xcd, 0xb7, 0x80), Column(0x70, 0xb4, 0xc5, 0x5a))

  const KEY: seq<bv32> := [0x00010203, 0x04050607, 0x08090a0b, 0x0c0d0e0f]

  // ---- The round keys

  /** A round key from the one before. */
  function NextRound(k: State, rc: bv8): State {
    var s0 := AddColumn(k.s0, Column(Xor(Sub(k.s3.b), rc), Sub(k.s3.c), Sub(k.s3.d), Sub(k.s3.a)));
    var s1 := AddColumn(k.s1, s0);
    var s2 := AddColumn(k.s2, s1);
    State(s0, s1, s2, AddColumn(k.s3, s2))
  }

  lemma NextKey(rk: seq<bv32>, j: nat)
    requires Filled(rk, KEY, 44) && 0 < j <= 10
    ensures KeyAt(rk, j) == NextRound(KeyAt(rk, j - 1), RconByte(j))
  {
    hide Col, AddColumn, Xor, Sub, RconByte, Filled;
    assert 4 * j % 4 == 0 && 4 * j / 4 == j;
    ScheduleLaw(rk, KEY, 44, 4 * j);
    ScheduleLaw(rk, KEY, 44, 4 * j + 1);
    ScheduleLaw(rk, KEY, 44, 4 * j + 2);
    ScheduleLaw(rk, KEY, 44, 4 * j + 3);
  }

  lemma Key1()
    ensures NextRound(K0, 0x01) == K1
  {
  }

  lemma Key2()
    ensures NextRound(K1, 0x02) == K2
  {
  }

  lemma Key3()
    ensures NextRound(K2, 0x04) == K3
  {
  }

  lemma Key4()
    ensures NextRound(K3, 0x08) == K4
  {
  }

  lemma Key5()
    ensures NextRound(K4, 0x10) == K5
  {
  }

  lemma Key6()
    ensures NextRound(K5, 0x20) == K6
  {
  }

  lemma Key7()
    ensures NextRound(K6, 0x40) == K7
  {
  }

  lemma Key8()
    ensures NextRound(K7, 0x80) == K8
  {
  }

  lemma Key9()
    ensures NextRound(K8, 0x1b) == K9
  {
  }

  lemma Key10()
    ensures NextRound(K9, 0x36) == K10
  {
  }

  lemma KeyVector(rk: seq<bv32>)
    requires Filled(rk, KEY, 44)
    ensures |rk| >= 44 && KeyAt(rk, 0) == K0
  {
  }

  lemma KeysVector(rk: seq<bv32>)
    requires Filled(rk, KEY, 44)
    ensures |rk| >= 44
    ensures forall j :: 0 <= j < 11 ==> KeyAt(rk, j) == [K0, K1, K2, K3, K4, K5, K6, K7, K8, K9, K10][j]
  {
    hide Filled, NextRound, KeyAt;
    KeyVector(rk);
    assert RconByte(1) == 1 && RconByte(2) == 2 && RconByte(3) == 4 && RconByte(4) == 8 && RconByte(5) == 0x10;
    assert RconByte(6) == 0x20 && RconByte(7) == 0x40 && RconByte(8) == 0x80 && RconByte(9) == 0x1b;
    assert RconByte(10) == 0x36;
    NextKey(rk, 1);
    Key1();
    NextKey(rk, 2);
    Key2();
    NextKey(rk, 3);
    Key3();
    NextKey(rk, 4);
    Key4();
    NextKey(rk, 5);
    Key5();
    NextKey(rk, 6);
    Key6();
    NextKey(rk, 7);
    Key7();
    NextKey(rk, 8);
    Key8();
    NextKey(rk, 9);
    Key9();
    NextKey(rk, 10);
    Key10();
  }

  // ---- The rounds

  /** A round with the multiplications written out. */
  function Mixed(p: Column): Column {
    Column(Sum(Times2(p.a), Times3(p.b), p.c, p.d), Sum(p.a, Times2(p.b), Times3(p.c), p.d),
           Sum(p.a, p.b, Times2(p.c), Times3(p.d)), Sum(Times3(p.a), p.b, p.c, Times2(p.d)))
  }

  lemma MixForm(p: Column)
    ensures MixColumn(p) == Mixed(p)
  {
    hide Sum, Mul, Times2, Times3;
    Multiples23(p.a);
    Multiples23(p.b);
    Multiples23(p.c);
    Multiples23(p.d);
  }

  function NextState(s: State, k: State): State {
    var t := ShiftRows(SubBytes(s));
    Add(State(Mixed(t.s0), Mixed(t.s1), Mixed(t.s2), Mixed(t.s3)), k)
  }

  lemma NextRounds(input: State, keys: seq<State>, i: nat)
    requires 0 < i < |keys|
    ensures Rounds(input, keys, i) == NextState(Rounds(input, keys, i - 1), keys[i])
  {
    hide MixColumn, Mixed, Add, SubBytes, ShiftRows;
    var t := ShiftRows(SubBytes(Rounds(input, keys, i - 1)));
    MixForm(t.s0);
    MixForm(t.s1);
    MixForm(t.s2);
    MixForm(t.s3);
  }

  lemma Round1()
    ensures NextState(S1, K1) == S2
  {
  }

  lemma Round2()
    ensures NextState(S2, K2) == S3
  {
  }

  lemma Round3()
    ensures NextState(S3, K3) == S4
  {
  }

  lemma Round4()
    ensures NextState(S4, K4) == S5
  {
  }

  lemma Round5()
    ensures NextState(S5, K5) == S6
  {
  }

  lemma Round6()
    ensures NextState(S6, K6) == S7
  {
  }

  lemma Round7()
    ensures NextState(S7, K7) == S8
  {
  }

  lemma Round8()
    ensures NextState(S8, K8) == S9
  {
  }

  lemma Round9()
    ensures NextState(S9, K9) == S10
  {
  }

  lemma FirstAndLast()
    ensures Add(P, K0) == S1 && Add(ShiftRows(SubBytes(S10)), K10) == C
  {
  }

  /** Key schedule and cipher together: the block is encrypted as in the standard. */
  lemma CipherVector(rk: seq<bv32>)
    requires Filled(rk, KEY, 44)
    ensures |rk| >= 44 && Cipher(P, Keys(rk, 11)) == C
  {
    hide Filled, NextState, KeyAt, Add, ShiftRows, SubBytes, MixColumns;
    KeysVector(rk);
    var keys := Keys(rk, 11);
    FirstAndLast();
    assert Rounds(P, keys, 0) == Add(P, keys[0]);
    NextRounds(P, keys, 1);
    Round1();
    NextRounds(P, keys, 2);
    Round2();
    NextRounds(P, keys, 3);
    Round3();
    NextRounds(P, keys, 4);
    Round4();
    NextRounds(P, keys, 5);
    Round5();
    NextRounds(P, keys, 6);
    Round6();
    NextRounds(P, keys, 7);
    Round7();
    NextRounds(P, keys, 8);
    Round8();
    NextRounds(P, keys, 9);
    Round9();
  }
}
