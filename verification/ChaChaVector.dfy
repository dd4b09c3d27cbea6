/** Two test vectors of RFC 8439: the quarter round of section 2.1.1, and the first key stream bytes of the
    zero key (appendix A.1, vector 1), by the states after each double round. */
module ChaChaVector {
  import opened ChaChaSpec
  import opened ChaCha

  lemma QuarterVector()
    ensures Quarter(0x11111111, 0x01020304, 0x9b8d6f43, 0x01234567) ==
            Four(0xea2a92f4, 0xcb1cf8ce, 0x4581472e, 0x5881c4bb)
  {
  }

  const R0 := Rows(Row(0x61707865, 0x3320646e, 0x79622d32, 0x6b206574),
                 Row(0x00000000, 0x00000000, 0x00000000, 0x00000000),
                 Row(0x00000000, 0x00000000, 0x00000000, 0x00000000),
                 Row(0x00000000, 0x00000000, 0x00000000, 0x00000000))
  const R1 := Rows(Row(0xe45fd249, 0x1bb820a6, 0xe31a88ea, 0xe667a9fe),
                 Row(0x2a3bf673, 0x86bf4098, 0x460b500a, 0xfa169886),
                 Row(0x538dca0e, 0x0c439641, 0x00fa16bc, 0x8a08812a),
                 Row(0x6bbf8b09, 0xc33013d6, 0xbb9f9849, 0x87c62165))
  const R2 := Rows(Row(0xb20e0da6, 0x21219e43, 0x79c69196, 0x8eb9d107),
                 Row(0x28bfa54e, 0x0e8a389f, 0x7919a4b4, 0x323f2639),
                 Row(0x69727d19, 0x12e796ec, 0xd1875d88, 0x602bb1ec),
                 Row(0x601c8a8d, 0x18cf3767, 0x60d10ebc, 0x17aa36ca))
  const R3 := Rows(Row(0x0287a2a1, 0xd2dc39ef, 0xf2ecf51e, 0xc3876afe),
                 Row(0x9276b821, 0x37ccb7a7, 0x1fe6c459, 0xe5f95617),
                 Row(0xd7b18523, 0xa0952ff2, 0x131f6ff5, 0x6f38a9cc),
                 Row(0x5c427a5f, 0x1d928d7b, 0xf4d2b4da, 0x1a640884))
  const R4 := Rows(Row(0xce7e87d9, 0xa31ffb1b, 0x6f562e4d, 0x3684a3ab),
                 Row(0xc30e842c, 0x3b7f9ace, 0x88e11b18, 0x1e1a71ef),
                 Row(0x72e14c98, 0x416f21b9, 0x6753449f, 0x19566d45),
                 Row(0xa3424a31, 0x01b086da, 0xb8fd7b38, 0x42fe0c0e))
  const R5 := Rows(Row(0x4e03490c, 0x97eebef9, 0xf682bb04, 0x2f47e3b0),
                 Row(0x50b4761b, 0xea7c9cf0, 0xb3a3e583, 0xe5bad8a8),
                 Row(0x4f9f9d79, 0x44f52393, 0xabbfaf66, 0x5efd347a),
                 Row(0xb1f55cb5, 0x05110aed, 0x561c5907, 0xd41d25b4))
  const R6 := Rows(Row(0x092a7c36, 0x20d8f099, 0x996bf24f, 0x6a62c0eb),
                 Row(0xbbc32904, 0x1474e049, 0xa589007e, 0x5f15ae2e),
                 Row(0x79f86405, 0xc0e37ad2, 0x3428e82c, 0x798cfaac),
                 Row(0x2c9f623a, 0x1969dea0, 0x2fe80b61, 0xbe261341))
  const R7 := Rows(Row(0x6ddf4b98, 0x5fde0110, 0xd9ddb632, 0x7418250b),
                 Row(0xdda3ea19, 0x46da35f5, 0x31fb36ca, 0x70e56323),
                 Row(0x46d58770, 0xc0c8e4e6, 0xba4b1657, 0xc4702b5e),
                 Row(0xaf4ad6e3, 0xe6947902, 0x2681e5bb, 0x28344e52))
  const R8 := Rows(Row(0xf6eb4385, 0x0f5070cf, 0x824ac4d4, 0xff026184),
                 Row(0x71db97dd, 0x60cd994d, 0xad805036, 0x89d591ce),
                 Row(0x9e5243f3, 0x16d0ee25, 0x82e92b96, 0xd0da8654),
                 Row(0x6b96a006, 0x477a37f7, 0xd244fa8c, 0xb24c5c63))
  const R9 := Rows(Row(0x0a49d0bb, 0xfd73bfeb, 0xc24392d4, 0xe110766d),
                 Row(0x7c188159, 0x390f8b4d, 0x0a23271f, 0x0e051682),
                 Row(0x5b48a341, 0x0861dff7, 0x5d33cdbb, 0x17d4372d),
                 Row(0xc5d89a0b, 0x9df1402c, 0xb08ab5e0, 0x85488580))
  const R10 := Rows(Row(0x4c704011, 0x5d1d8d32, 0x6c08300e, 0xbd9d20df),
                 Row(0xb819d2bd, 0x1aed8da0, 0xccef36a8, 0xc70d778b),
                 Row(0x7c5941da, 0x8d485751, 0x3fe02477, 0x374ad8b8),
                 Row(0xf4b8436a, 0x1ca11815, 0x69b687c3, 0x8665eeb2))

  lemma Step1()
    ensures DoubleRound(R0) == R1
  {
  }

  lemma Step2()
    ensures DoubleRound(R1) == R2
  {
  }

  lemma Step3()
    ensures DoubleRound(R2) == R3
  {
  }

  lemma Step4()
    ensures DoubleRound(R3) == R4
  {
  }

  lemma Step5()
    ensures DoubleRound(R4) == R5
  {
  }

  lemma Step6()
    ensures DoubleRound(R5) == R6
  {
  }

  lemma Step7()
    ensures DoubleRound(R6) == R7
  {
  }

  lemma Step8()
    ensures DoubleRound(R7) == R8
  {
  }

  lemma Step9()
    ensures DoubleRound(R8) == R9
  {
  }

  lemma Step10()
    ensures DoubleRound(R9) == R10
  {
  }

  ghost function Zeros(n: nat): (z: seq<bv8>)
    ensures |z| == n && forall i :: 0 <= i < n ==> z[i] == 0
  {
    seq(n, i => 0)
  }

  ghost function ZeroStart(): Words { Start(Zeros(32), Zeros(16)) }

  lemma ZeroLoad(s: seq<bv8>, off: nat)
    requires off + 4 <= |s| && s[off] == s[off + 1] == s[off + 2] == s[off + 3] == 0
    ensures Load(s, off) == 0
  {
  }

  lemma StartRow()
    ensures RowsOf(ZeroStart()) == R0
  {
    hide Load;
    forall i | 4 <= i < 16 ensures ZeroStart()[i] == 0 {
      if i < 12 { ZeroLoad(Zeros(32), 4 * i - 16); } else { ZeroLoad(Zeros(16), 4 * i - 48); }
    }
  }

  lemma Climb(s: Words, n: nat, r: Rows, r': Rows)
    requires RowsOf(Rounds(s, n)) == r && DoubleRound(r) == r'
    ensures RowsOf(Rounds(s, n + 1)) == r'
  {
    hide InnerBlock, DoubleRound, RowsOf;
    InnerBlockIsDoubleRound(Rounds(s, n));
  }

  lemma RoundsVector()
    ensures RowsOf(Rounds(ZeroStart(), 10)) == R10
  {
    StartRow();
    var s := ZeroStart();
    hide InnerBlock, DoubleRound, RowsOf, ZeroStart;
    assert Rounds(s, 0) == s;
    Step1();
    Climb(s, 0, R0, R1);
    Step2();
    Climb(s, 1, R1, R2);
    Step3();
    Climb(s, 2, R2, R3);
    Step4();
    Climb(s, 3, R3, R4);
    Step5();
    Climb(s, 4, R4, R5);
    Step6();
    Climb(s, 5, R5, R6);
    Step7();
    Climb(s, 6, R6, R7);
    Step8();
    Climb(s, 7, R7, R8);
    Step9();
    Climb(s, 8, R8, R9);
    Step10();
    Climb(s, 9, R9, R10);
  }

  /** The first four words of the block. */
  lemma BlockVector()
    ensures var b := Block(ZeroStart()); [b[0], b[1], b[2], b[3]] == [0xade0b876, 0x903df1a0, 0xe56a5d40, 0x28bd8653]
  {
    RoundsVector();
    StartRow();
    hide ZeroStart, Rounds;
  }

  lemma WordBytes(s: Words, i: nat)
    requires i < 16
    ensures forall k :: 0 <= k < 4 ==> Stream(s, 4 * i + k) == Byte(Block(s)[i], k)
  {
    hide Byte, Block;
  }

  /** What the zero key makes of sixteen zero bytes. */
  lemma StreamVector()
    ensures Crypted(ZeroStart(), Zeros(16)) ==
            [0x76, 0xb8, 0xe0, 0xad, 0xa0, 0xf1, 0x3d, 0x90,
             0x40, 0x5d, 0x6a, 0xe5, 0x53, 0x86, 0xbd, 0x28]
  {
    BlockVector();
    var s := ZeroStart();
    hide Block, ZeroStart, Stream;
    WordBytes(s, 0);
    WordBytes(s, 1);
    WordBytes(s, 2);
    WordBytes(s, 3);
    forall j | 0 <= j < 16 ensures Crypted(s, Zeros(16))[j] == Byte(Block(s)[j / 4], j % 4) {
      assert Stream(s, 4 * (j / 4) + j % 4) == Byte(Block(s)[j / 4], j % 4);
    }
  }
}
