/** The plain C block cipher of src/aes.c: T-table rounds, key schedules and the context. */
module Aes {
  import opened AesTables
  import opened AesSpec

  // ---- Words and bytes

  function B0(x: bv32): bv8 { (x & 0xff) as bv8 }
  function B1(x: bv32): bv8 { ((x >> 8) & 0xff) as bv8 }
  function B2(x: bv32): bv8 { ((x >> 16) & 0xff) as bv8 }
  function B3(x: bv32): bv8 { (x >> 24) as bv8 }

  function M0(x: bv32): bv32 { x & 0x0000_00ff }
  function M1(x: bv32): bv32 { x & 0x0000_ff00 }
  function M2(x: bv32): bv32 { x & 0x00ff_0000 }
  function M3(x: bv32): bv32 { x & 0xff00_0000 }

  function Col(x: bv32): Column { Column(B3(x), B2(x), B1(x), B0(x)) }

  function Word(p: Column): bv32 {
    (p.a as bv32 << 24) | (p.b as bv32 << 16) | (p.c as bv32 << 8) | p.d as bv32
  }

  lemma WordCol(x: bv32)
    ensures Word(Col(x)) == x
  {
  }

  lemma ColWord(p: Column)
    ensures Col(Word(p)) == p
  {
  }

  function XorWord(x: bv32, y: bv32): bv32 { x ^ y }

  function XorAll(x: bv32, y: bv32, z: bv32, w: bv32, k: bv32): bv32 {
    XorWord(XorWord(XorWord(XorWord(x, y), z), w), k)
  }

  lemma ColXor(x: bv32, y: bv32)
    ensures Col(XorWord(x, y)) == AddColumn(Col(x), Col(y))
  {
  }

  function StateOf(x0: bv32, x1: bv32, x2: bv32, x3: bv32): State {
    State(Col(x0), Col(x1), Col(x2), Col(x3))
  }

  // ---- What the tables hold

  lemma Te0Bytes(x: bv8)
    ensures var y, w := Sub(x), Te0(x);
            B3(w) == Times2(y) && B2(w) == y && B1(w) == y && B0(w) == Times3(y)
  {
  }

  lemma Te1Bytes(x: bv8)
    ensures var y, w := Sub(x), Te1(x);
            B3(w) == Times3(y) && B2(w) == Times2(y) && B1(w) == y && B0(w) == y
  {
  }

  lemma Te2Bytes(x: bv8)
    ensures var y, w := Sub(x), Te2(x);
            B3(w) == y && B2(w) == Times3(y) && B1(w) == Times2(y) && B0(w) == y
  {
  }

  lemma Te3Bytes(x: bv8)
    ensures var y, w := Sub(x), Te3(x);
            B3(w) == y && B2(w) == y && B1(w) == Times3(y) && B0(w) == Times2(y)
  {
  }

  lemma Te4Bytes(x: bv8)
    ensures var y, w := Sub(x), Te4(x);
            B3(w) == y && B2(w) == y && B1(w) == y && B0(w) == y
  {
  }

  lemma Td0Bytes(x: bv8)
    ensures var y, w := InvSub(x), Td0(x);
            B3(w) == TimesE(y) && B2(w) == Times9(y) && B1(w) == TimesD(y) && B0(w) == TimesB(y)
  {
  }

  lemma Td1Bytes(x: bv8)
    ensures var y, w := InvSub(x), Td1(x);
            B3(w) == TimesB(y) && B2(w) == TimesE(y) && B1(w) == Times9(y) && B0(w) == TimesD(y)
  {
  }

  lemma Td2Bytes(x: bv8)
    ensures var y, w := InvSub(x), Td2(x);
            B3(w) == TimesD(y) && B2(w) == TimesB(y) && B1(w) == TimesE(y) && B0(w) == Times9(y)
  {
  }

  lemma Td3Bytes(x: bv8)
    ensures var y, w := InvSub(x), Td3(x);
            B3(w) == Times9(y) && B2(w) == TimesD(y) && B1(w) == TimesB(y) && B0(w) == TimesE(y)
  {
  }

  lemma Td4Bytes(x: bv8)
    ensures var y, w := InvSub(x), Td4(x);
            B3(w) == y && B2(w) == y && B1(w) == y && B0(w) == y
  {
  }

  /** Te0 to Te3 hold the S-box times the columns of the MixColumns matrix. */
  lemma EncryptionTables(x: bv8)
    ensures var y := Sub(x);
            Col(Te0(x)) == Column(Mul(2, y), y, y, Mul(3, y)) && Col(Te1(x)) == Column(Mul(3, y), Mul(2, y), y, y) &&
            Col(Te2(x)) == Column(y, Mul(3, y), Mul(2, y), y) && Col(Te3(x)) == Column(y, y, Mul(3, y), Mul(2, y)) &&
            Col(Te4(x)) == Column(y, y, y, y)
  {
    hide Sub, Mul, Times2, Times3, Te0, Te1, Te2, Te3, Te4, B0, B1, B2, B3;
    Multiples23(Sub(x));
    Te0Bytes(x);
    Te1Bytes(x);
    Te2Bytes(x);
    Te3Bytes(x);
    Te4Bytes(x);
  }

  /** Td0 to Td3 hold the inverse S-box times the columns of the InvMixColumns matrix. */
  lemma DecryptionTables(x: bv8)
    ensures var y := InvSub(x);
            Col(Td0(x)) == Column(Mul(14, y), Mul(9, y), Mul(13, y), Mul(11, y)) &&
            Col(Td1(x)) == Column(Mul(11, y), Mul(14, y), Mul(9, y), Mul(13, y)) &&
            Col(Td2(x)) == Column(Mul(13, y), Mul(11, y), Mul(14, y), Mul(9, y)) &&
            Col(Td3(x)) == Column(Mul(9, y), Mul(13, y), Mul(11, y), Mul(14, y)) &&
            Col(Td4(x)) == Column(y, y, y, y)
  {
    hide InvSub, Mul, Times9, TimesB, TimesD, TimesE, Td0, Td1, Td2, Td3, Td4, B0, B1, B2, B3;
    Multiples9B(InvSub(x));
    MultiplesDE(InvSub(x));
    Td0Bytes(x);
    Td1Bytes(x);
    Td2Bytes(x);
    Td3Bytes(x);
    Td4Bytes(x);
  }

  lemma SumChain(a: bv8, b: bv8, c: bv8, d: bv8, k: bv8)
    ensures Xor(Xor(Xor(Xor(a, b), c), d), k) == Xor(Sum(a, b, c, d), k)
  {
    hide Xor;
    XorAssociates(Xor(a, b), c, d);
  }

  lemma ColXorAll(x: bv32, y: bv32, z: bv32, w: bv32, k: bv32)
    ensures Col(XorAll(x, y, z, w, k))
         == AddColumn(AddColumn(AddColumn(AddColumn(Col(x), Col(y)), Col(z)), Col(w)), Col(k))
  {
    hide Col, AddColumn, XorWord;
    ColXor(x, y);
    ColXor(XorWord(x, y), z);
    ColXor(XorWord(XorWord(x, y), z), w);
    ColXor(XorWord(XorWord(XorWord(x, y), z), w), k);
  }

  lemma EncBytes(a: bv8, b: bv8, c: bv8, d: bv8, k: bv32)
    ensures Col(XorAll(Te0(a), Te1(b), Te2(c), Te3(d), k))
         == AddColumn(MixColumn(SubColumn(Column(a, b, c, d))), Col(k))
  {
    hide Col, Te0, Te1, Te2, Te3, Te4, Sub, Mul, Sum, Xor, XorAll;
    EncryptionTables(a);
    EncryptionTables(b);
    EncryptionTables(c);
    EncryptionTables(d);
    ColXorAll(Te0(a), Te1(b), Te2(c), Te3(d), k);
    var p, q := SubColumn(Column(a, b, c, d)), Col(k);
    SumChain(Mul(2, p.a), Mul(3, p.b), p.c, p.d, q.a);
    SumChain(p.a, Mul(2, p.b), Mul(3, p.c), p.d, q.b);
    SumChain(p.a, p.b, Mul(2, p.c), Mul(3, p.d), q.c);
    SumChain(Mul(3, p.a), p.b, p.c, Mul(2, p.d), q.d);
  }

  lemma DecBytes(a: bv8, b: bv8, c: bv8, d: bv8, k: bv32)
    ensures Col(XorAll(Td0(a), Td1(b), Td2(c), Td3(d), k))
         == AddColumn(InvMixColumn(InvSubColumn(Column(a, b, c, d))), Col(k))
  {
    hide Col, Td0, Td1, Td2, Td3, Td4, InvSub, Mul, Sum, Xor, XorAll;
    DecryptionTables(a);
    DecryptionTables(b);
    DecryptionTables(c);
    DecryptionTables(d);
    ColXorAll(Td0(a), Td1(b), Td2(c), Td3(d), k);
    var p, q := InvSubColumn(Column(a, b, c, d)), Col(k);
    SumChain(Mul(14, p.a), Mul(11, p.b), Mul(13, p.c), Mul(9, p.d), q.a);
    SumChain(Mul(9, p.a), Mul(14, p.b), Mul(11, p.c), Mul(13, p.d), q.b);
    SumChain(Mul(13, p.a), Mul(9, p.b), Mul(14, p.c), Mul(11, p.d), q.c);
    SumChain(Mul(11, p.a), Mul(13, p.b), Mul(9, p.c), Mul(14, p.d), q.d);
  }

  lemma MaskedBytes(x: bv32)
    ensures B3(M3(x)) == B3(x) && B2(M3(x)) == 0 && B1(M3(x)) == 0 && B0(M3(x)) == 0
    ensures B3(M2(x)) == 0 && B2(M2(x)) == B2(x) && B1(M2(x)) == 0 && B0(M2(x)) == 0
    ensures B3(M1(x)) == 0 && B2(M1(x)) == 0 && B1(M1(x)) == B1(x) && B0(M1(x)) == 0
    ensures B3(M0(x)) == 0 && B2(M0(x)) == 0 && B1(M0(x)) == 0 && B0(M0(x)) == B0(x)
  {
  }

  lemma XorZeroByte(x: bv8)
    ensures Xor(x, 0) == x && Xor(0, x) == x
  {
  }

  /** Masking picks one byte of each of four words. */
  lemma Masked(x: bv32, y: bv32, z: bv32, w: bv32, k: bv32)
    ensures Col(XorAll(M3(x), M2(y), M1(z), M0(w), k)) == AddColumn(Column(B3(x), B2(y), B1(z), B0(w)), Col(k))
  {
    hide B0, B1, B2, B3, M0, M1, M2, M3, Xor, XorAll;
    ColXorAll(M3(x), M2(y), M1(z), M0(w), k);
    MaskedBytes(x);
    MaskedBytes(y);
    MaskedBytes(z);
    MaskedBytes(w);
    XorZeroByte(0);
    XorZeroByte(B3(x));
    XorZeroByte(B2(y));
    XorZeroByte(B1(z));
    XorZeroByte(B0(w));
  }

  lemma LastBytes(a: bv8, b: bv8, c: bv8, d: bv8, k: bv32)
    ensures Col(XorAll(M3(Te4(a)), M2(Te4(b)), M1(Te4(c)), M0(Te4(d)), k))
         == AddColumn(SubColumn(Column(a, b, c, d)), Col(k))
  {
    hide Te0, Te1, Te2, Te3, Te4, Sub, M0, M1, M2, M3, B0, B1, B2, B3, AddColumn, Mul, XorAll;
    Masked(Te4(a), Te4(b), Te4(c), Te4(d), k);
    EncryptionTables(a);
    EncryptionTables(b);
    EncryptionTables(c);
    EncryptionTables(d);
  }

  lemma InvLastBytes(a: bv8, b: bv8, c: bv8, d: bv8, k: bv32)
    ensures Col(XorAll(M3(Td4(a)), M2(Td4(b)), M1(Td4(c)), M0(Td4(d)), k))
         == AddColumn(InvSubColumn(Column(a, b, c, d)), Col(k))
  {
    hide Td0, Td1, Td2, Td3, Td4, InvSub, M0, M1, M2, M3, B0, B1, B2, B3, AddColumn, Mul, XorAll;
    Masked(Td4(a), Td4(b), Td4(c), Td4(d), k);
    DecryptionTables(a);
    DecryptionTables(b);
    DecryptionTables(c);
    DecryptionTables(d);
  }

  /** A line of AES_ENC_ROUND. */
  function EncWord(p: bv32, q: bv32, r: bv32, s: bv32, k: bv32): bv32 {
    XorAll(Te0(B3(p)), Te1(B2(q)), Te2(B1(r)), Te3(B0(s)), k)
  }

  /** A line of AES_DEC_ROUND. */
  function DecWord(p: bv32, q: bv32, r: bv32, s: bv32, k: bv32): bv32 {
    XorAll(Td0(B3(p)), Td1(B2(q)), Td2(B1(r)), Td3(B0(s)), k)
  }

  /** A line of the last round of encryption. */
  function LastWord(p: bv32, q: bv32, r: bv32, s: bv32, k: bv32): bv32 {
    XorAll(M3(Te4(B3(p))), M2(Te4(B2(q))), M1(Te4(B1(r))), M0(Te4(B0(s))), k)
  }

  function InvLastWord(p: bv32, q: bv32, r: bv32, s: bv32, k: bv32): bv32 {
    XorAll(M3(Td4(B3(p))), M2(Td4(B2(q))), M1(Td4(B1(r))), M0(Td4(B0(s))), k)
  }

  /** The four bytes that ShiftRows brings together. */
  function Gathered(p: Column, q: Column, r: Column, s: Column): Column { Column(p.a, q.b, r.c, s.d) }

  lemma EncColumn(p: bv32, q: bv32, r: bv32, s: bv32, k: bv32)
    ensures Col(EncWord(p, q, r, s, k))
         == AddColumn(MixColumn(SubColumn(Gathered(Col(p), Col(q), Col(r), Col(s)))), Col(k))
  {
    hide Te0, Te1, Te2, Te3, B0, B1, B2, B3, XorAll, AddColumn, MixColumn, SubColumn;
    EncBytes(B3(p), B2(q), B1(r), B0(s), k);
  }

  lemma DecColumn(p: bv32, q: bv32, r: bv32, s: bv32, k: bv32)
    ensures Col(DecWord(p, q, r, s, k))
         == AddColumn(InvMixColumn(InvSubColumn(Gathered(Col(p), Col(q), Col(r), Col(s)))), Col(k))
  {
    hide Td0, Td1, Td2, Td3, B0, B1, B2, B3, XorAll, AddColumn, InvMixColumn, InvSubColumn;
    DecBytes(B3(p), B2(q), B1(r), B0(s), k);
  }

  lemma LastColumn(p: bv32, q: bv32, r: bv32, s: bv32, k: bv32)
    ensures Col(LastWord(p, q, r, s, k)) == AddColumn(SubColumn(Gathered(Col(p), Col(q), Col(r), Col(s))), Col(k))
  {
    hide Te4, M0, M1, M2, M3, B0, B1, B2, B3, XorAll, AddColumn, SubColumn;
    LastBytes(B3(p), B2(q), B1(r), B0(s), k);
  }

  lemma InvLastColumn(p: bv32, q: bv32, r: bv32, s: bv32, k: bv32)
    ensures Col(InvLastWord(p, q, r, s, k))
         == AddColumn(InvSubColumn(Gathered(Col(p), Col(q), Col(r), Col(s))), Col(k))
  {
    hide Td4, M0, M1, M2, M3, B0, B1, B2, B3, XorAll, AddColumn, InvSubColumn;
    InvLastBytes(B3(p), B2(q), B1(r), B0(s), k);
  }

  // ---- Blocks in memory

  function ColumnAt(s: seq<bv8>, off: nat): Column
    requires off + 4 <= |s|
  {
    Column(s[off], s[off + 1], s[off + 2], s[off + 3])
  }

  function StateAt(s: seq<bv8>, off: nat): State
    requires off + 16 <= |s|
  {
    State(ColumnAt(s, off), ColumnAt(s, off + 4), ColumnAt(s, off + 8), ColumnAt(s, off + 12))
  }

  /** GETU32: big-endian. */
  method getU32(p: array<bv8>, off: nat) returns (w: bv32)
    requires off + 4 <= p.Length
    ensures Col(w) == ColumnAt(p[..], off)
  {
    ColWord(Column(p[off], p[off + 1], p[off + 2], p[off + 3]));
    w := Word(Column(p[off], p[off + 1], p[off + 2], p[off + 3]));
  }

  /** PUTU32. */
  method putU32(p: array<bv8>, off: nat, w: bv32)
    requires off + 4 <= p.Length
    modifies p
    ensures ColumnAt(p[..], off) == Col(w)
    ensures forall j :: 0 <= j < p.Length && !(off <= j < off + 4) ==> p[j] == old(p[j])
  {
    hide B0, B1, B2, B3;
    p[off], p[off + 1], p[off + 2], p[off + 3] := B3(w), B2(w), B1(w), B0(w);
  }

  // ---- Round keys

  function KeyAt(ws: seq<bv32>, i: nat): State
    requires 4 * i + 4 <= |ws|
  {
    StateOf(ws[4 * i], ws[4 * i + 1], ws[4 * i + 2], ws[4 * i + 3])
  }

  /** The first n round keys of a schedule. */
  ghost function Keys(ws: seq<bv32>, n: nat): (ks: seq<State>)
    requires 4 * n <= |ws|
    ensures |ks| == n && forall i :: 0 <= i < n ==> ks[i] == KeyAt(ws, i)
  {
    seq(n, i requires 0 <= i < n => KeyAt(ws, i))
  }

  // ---- Encryption of a block

  /** AES_ENC_ROUND is a round of the cipher. */
  method encRound(s0: bv32, s1: bv32, s2: bv32, s3: bv32, rk: array<bv32>, round: nat,
                  ghost input: State, ghost keys: seq<State>)
    returns (t0: bv32, t1: bv32, t2: bv32, t3: bv32)
    requires 0 < round < |keys| && 4 * |keys| <= rk.Length && keys == Keys(rk[..], |keys|)
    requires StateOf(s0, s1, s2, s3) == Rounds(input, keys, round - 1)
    ensures StateOf(t0, t1, t2, t3) == Rounds(input, keys, round)
  {
    hide Col, EncWord, AddColumn, MixColumn, Sub;
    t0 := EncWord(s0, s1, s2, s3, rk[4 * round + 0]);
    t1 := EncWord(s1, s2, s3, s0, rk[4 * round + 1]);
    t2 := EncWord(s2, s3, s0, s1, rk[4 * round + 2]);
    t3 := EncWord(s3, s0, s1, s2, rk[4 * round + 3]);
    EncColumn(s0, s1, s2, s3, rk[4 * round + 0]);
    EncColumn(s1, s2, s3, s0, rk[4 * round + 1]);
    EncColumn(s2, s3, s0, s1, rk[4 * round + 2]);
    EncColumn(s3, s0, s1, s2, rk[4 * round + 3]);
    assert keys[round] == KeyAt(rk[..], round);
  }

  method decRound(s0: bv32, s1: bv32, s2: bv32, s3: bv32, rk: array<bv32>, round: nat,
                  ghost input: State, ghost keys: seq<State>)
    returns (t0: bv32, t1: bv32, t2: bv32, t3: bv32)
    requires 0 < round < |keys| && 4 * |keys| <= rk.Length && keys == Keys(rk[..], |keys|)
    requires StateOf(s0, s1, s2, s3) == InvRounds(input, keys, round - 1)
    ensures StateOf(t0, t1, t2, t3) == InvRounds(input, keys, round)
  {
    hide Col, DecWord, AddColumn, InvMixColumn, InvSub;
    t0 := DecWord(s0, s3, s2, s1, rk[4 * round + 0]);
    t1 := DecWord(s1, s0, s3, s2, rk[4 * round + 1]);
    t2 := DecWord(s2, s1, s0, s3, rk[4 * round + 2]);
    t3 := DecWord(s3, s2, s1, s0, rk[4 * round + 3]);
    DecColumn(s0, s3, s2, s1, rk[4 * round + 0]);
    DecColumn(s1, s0, s3, s2, rk[4 * round + 1]);
    DecColumn(s2, s1, s0, s3, rk[4 * round + 2]);
    DecColumn(s3, s2, s1, s0, rk[4 * round + 3]);
    assert keys[round] == KeyAt(rk[..], round);
  }

  /** The block is read and the first round key added. */
  method firstState(p: array<bv8>, off: nat, rk: array<bv32>)
    returns (s0: bv32, s1: bv32, s2: bv32, s3: bv32)
    requires off + 16 <= p.Length && rk.Length >= 4
    ensures StateOf(s0, s1, s2, s3) == Add(StateAt(p[..], off), KeyAt(rk[..], 0))
  {
    hide Col, AddColumn, XorWord;
    var w0 := getU32(p, off);
    var w1 := getU32(p, off + 4);
    var w2 := getU32(p, off + 8);
    var w3 := getU32(p, off + 12);
    s0, s1, s2, s3 := XorWord(w0, rk[0]), XorWord(w1, rk[1]), XorWord(w2, rk[2]), XorWord(w3, rk[3]);
    ColXor(w0, rk[0]);
    ColXor(w1, rk[1]);
    ColXor(w2, rk[2]);
    ColXor(w3, rk[3]);
  }

  /** Four words go out as a block. */
  method putState(p: array<bv8>, off: nat, s0: bv32, s1: bv32, s2: bv32, s3: bv32)
    requires off + 16 <= p.Length
    modifies p
    ensures StateAt(p[..], off) == StateOf(s0, s1, s2, s3)
    ensures forall j :: 0 <= j < p.Length && !(off <= j < off + 16) ==> p[j] == old(p[j])
  {
    hide Col;
    putU32(p, off, s0);
    putU32(p, off + 4, s1);
    putU32(p, off + 8, s2);
    putU32(p, off + 12, s3);
  }

  predicate RoundCount(nr: nat) { nr == 10 || nr == 12 || nr == 14 }

  lemma FirstRound(input: State, ws: seq<bv32>, keys: seq<State>)
    requires 0 < 4 * |keys| <= |ws| && keys == Keys(ws, |keys|)
    ensures Rounds(input, keys, 0) == Add(input, KeyAt(ws, 0)) == InvRounds(input, keys, 0)
  {
  }

  /** The calls of AES_ENC_ROUND. */
  method encRounds(i0: bv32, i1: bv32, i2: bv32, i3: bv32, rk: array<bv32>, nr: nat,
                   ghost input: State, ghost keys: seq<State>)
    returns (t0: bv32, t1: bv32, t2: bv32, t3: bv32)
    requires RoundCount(nr) && 4 * nr + 4 <= rk.Length && keys == Keys(rk[..], nr + 1)
    requires StateOf(i0, i1, i2, i3) == Rounds(input, keys, 0)
    ensures StateOf(t0, t1, t2, t3) == Rounds(input, keys, nr - 1)
  {
    hide StateOf, Col, Rounds, Keys;
    var s0, s1, s2, s3 := i0, i1, i2, i3;
    t0, t1, t2, t3 := encRound(s0, s1, s2, s3, rk, 1, input, keys);
    s0, s1, s2, s3 := encRound(t0, t1, t2, t3, rk, 2, input, keys);
    t0, t1, t2, t3 := encRound(s0, s1, s2, s3, rk, 3, input, keys);
    s0, s1, s2, s3 := encRound(t0, t1, t2, t3, rk, 4, input, keys);
    t0, t1, t2, t3 := encRound(s0, s1, s2, s3, rk, 5, input, keys);
    s0, s1, s2, s3 := encRound(t0, t1, t2, t3, rk, 6, input, keys);
    t0, t1, t2, t3 := encRound(s0, s1, s2, s3, rk, 7, input, keys);
    s0, s1, s2, s3 := encRound(t0, t1, t2, t3, rk, 8, input, keys);
    t0, t1, t2, t3 := encRound(s0, s1, s2, s3, rk, 9, input, keys);
    if nr > 10 {
      s0, s1, s2, s3 := encRound(t0, t1, t2, t3, rk, 10, input, keys);
      t0, t1, t2, t3 := encRound(s0, s1, s2, s3, rk, 11, input, keys);
      if nr > 12 {
        s0, s1, s2, s3 := encRound(t0, t1, t2, t3, rk, 12, input, keys);
        t0, t1, t2, t3 := encRound(s0, s1, s2, s3, rk, 13, input, keys);
      }
    }
  }

  lemma LastRound(t0: bv32, t1: bv32, t2: bv32, t3: bv32, ws: seq<bv32>, nr: nat, input: State, keys: seq<State>)
    requires nr > 0 && 4 * nr + 4 <= |ws| && keys == Keys(ws, nr + 1)
    requires StateOf(t0, t1, t2, t3) == Rounds(input, keys, nr - 1)
    ensures StateOf(LastWord(t0, t1, t2, t3, ws[4 * nr]), LastWord(t1, t2, t3, t0, ws[4 * nr + 1]),
                    LastWord(t2, t3, t0, t1, ws[4 * nr + 2]), LastWord(t3, t0, t1, t2, ws[4 * nr + 3]))
         == Cipher(input, keys)
  {
    hide Col, LastWord, AddColumn, Sub, Rounds;
    LastColumn(t0, t1, t2, t3, ws[4 * nr]);
    LastColumn(t1, t2, t3, t0, ws[4 * nr + 1]);
    LastColumn(t2, t3, t0, t1, ws[4 * nr + 2]);
    LastColumn(t3, t0, t1, t2, ws[4 * nr + 3]);
    assert keys[nr] == KeyAt(ws, nr);
  }

  /** aes_internal_encrypt is the cipher of the standard; pt and ct may be the same memory. */
  method internalEncrypt(rk: array<bv32>, nr: nat, pt: array<bv8>, po: nat, ct: array<bv8>, co: nat)
    requires RoundCount(nr) && 4 * nr + 4 <= rk.Length && po + 16 <= pt.Length && co + 16 <= ct.Length
    modifies ct
    ensures StateAt(ct[..], co) == Cipher(StateAt(old(pt[..]), po), Keys(rk[..], nr + 1))
    ensures forall j :: 0 <= j < ct.Length && !(co <= j < co + 16) ==> ct[j] == old(ct[j])
  {
    hide StateAt, StateOf, Col, LastWord, Rounds, Keys, Cipher;
    ghost var input, keys := StateAt(pt[..], po), Keys(rk[..], nr + 1);
    var s0, s1, s2, s3 := firstState(pt, po, rk);
    FirstRound(input, rk[..], keys);
    var t0, t1, t2, t3 := encRounds(s0, s1, s2, s3, rk, nr, input, keys);
    var k := 4 * nr;
    s0 := LastWord(t0, t1, t2, t3, rk[k]);
    s1 := LastWord(t1, t2, t3, t0, rk[k + 1]);
    s2 := LastWord(t2, t3, t0, t1, rk[k + 2]);
    s3 := LastWord(t3, t0, t1, t2, rk[k + 3]);
    LastRound(t0, t1, t2, t3, rk[..], nr, input, keys);
    putState(ct, co, s0, s1, s2, s3);
  }

  /** The calls of AES_DEC_ROUND. */
  method decRounds(i0: bv32, i1: bv32, i2: bv32, i3: bv32, rk: array<bv32>, nr: nat,
                   ghost input: State, ghost keys: seq<State>)
    returns (t0: bv32, t1: bv32, t2: bv32, t3: bv32)
    requires RoundCount(nr) && 4 * nr + 4 <= rk.Length && keys == Keys(rk[..], nr + 1)
    requires StateOf(i0, i1, i2, i3) == InvRounds(input, keys, 0)
    ensures StateOf(t0, t1, t2, t3) == InvRounds(input, keys, nr - 1)
  {
    hide StateOf, Col, InvRounds, Keys;
    var s0, s1, s2, s3 := i0, i1, i2, i3;
    t0, t1, t2, t3 := decRound(s0, s1, s2, s3, rk, 1, input, keys);
    s0, s1, s2, s3 := decRound(t0, t1, t2, t3, rk, 2, input, keys);
    t0, t1, t2, t3 := decRound(s0, s1, s2, s3, rk, 3, input, keys);
    s0, s1, s2, s3 := decRound(t0, t1, t2, t3, rk, 4, input, keys);
    t0, t1, t2, t3 := decRound(s0, s1, s2, s3, rk, 5, input, keys);
    s0, s1, s2, s3 := decRound(t0, t1, t2, t3, rk, 6, input, keys);
    t0, t1, t2, t3 := decRound(s0, s1, s2, s3, rk, 7, input, keys);
    s0, s1, s2, s3 := decRound(t0, t1, t2, t3, rk, 8, input, keys);
    t0, t1, t2, t3 := decRound(s0, s1, s2, s3, rk, 9, input, keys);
    if nr > 10 {
      s0, s1, s2, s3 := decRound(t0, t1, t2, t3, rk, 10, input, keys);
      t0, t1, t2, t3 := decRound(s0, s1, s2, s3, rk, 11, input, keys);
      if nr > 12 {
        s0, s1, s2, s3 := decRound(t0, t1, t2, t3, rk, 12, input, keys);
        t0, t1, t2, t3 := decRound(s0, s1, s2, s3, rk, 13, input, keys);
      }
    }
  }

  lemma InvLastRound(t0: bv32, t1: bv32, t2: bv32, t3: bv32, ws: seq<bv32>, nr: nat, input: State, keys: seq<State>)
    requires nr > 0 && 4 * nr + 4 <= |ws| && keys == Keys(ws, nr + 1)
    requires StateOf(t0, t1, t2, t3) == InvRounds(input, keys, nr - 1)
    ensures StateOf(InvLastWord(t0, t3, t2, t1, ws[4 * nr]), InvLastWord(t1, t0, t3, t2, ws[4 * nr + 1]),
                    InvLastWord(t2, t1, t0, t3, ws[4 * nr + 2]), InvLastWord(t3, t2, t1, t0, ws[4 * nr + 3]))
         == EqInvCipher(input, keys)
  {
    hide Col, InvLastWord, AddColumn, InvSub, InvRounds;
    InvLastColumn(t0, t3, t2, t1, ws[4 * nr]);
    InvLastColumn(t1, t0, t3, t2, ws[4 * nr + 1]);
    InvLastColumn(t2, t1, t0, t3, ws[4 * nr + 2]);
    InvLastColumn(t3, t2, t1, t0, ws[4 * nr + 3]);
    assert keys[nr] == KeyAt(ws, nr);
  }

  /** aes_internal_decrypt is the equivalent inverse cipher of the standard; ct and pt may be the same memory. */
  method internalDecrypt(rk: array<bv32>, nr: nat, ct: array<bv8>, co: nat, pt: array<bv8>, po: nat)
    requires RoundCount(nr) && 4 * nr + 4 <= rk.Length && co + 16 <= ct.Length && po + 16 <= pt.Length
    modifies pt
    ensures StateAt(pt[..], po) == EqInvCipher(StateAt(old(ct[..]), co), Keys(rk[..], nr + 1))
    ensures forall j :: 0 <= j < pt.Length && !(po <= j < po + 16) ==> pt[j] == old(pt[j])
  {
    hide StateAt, StateOf, Col, InvLastWord, InvRounds, Keys, EqInvCipher;
    ghost var input, keys := StateAt(ct[..], co), Keys(rk[..], nr + 1);
    var s0, s1, s2, s3 := firstState(ct, co, rk);
    FirstRound(input, rk[..], keys);
    var t0, t1, t2, t3 := decRounds(s0, s1, s2, s3, rk, nr, input, keys);
    var k := 4 * nr;
    s0 := InvLastWord(t0, t3, t2, t1, rk[k]);
    s1 := InvLastWord(t1, t0, t3, t2, rk[k + 1]);
    s2 := InvLastWord(t2, t1, t0, t3, rk[k + 2]);
    s3 := InvLastWord(t3, t2, t1, t0, rk[k + 3]);
    InvLastRound(t0, t1, t2, t3, rk[..], nr, input, keys);
    putState(pt, po, s0, s1, s2, s3);
  }
}
