/** The two versions of cc20_crypt in src/cc20.c, on a little-endian machine. */
module ChaCha {
  import opened ChaChaSpec

  // ---- Rows of four words (SSE2)

  datatype Row = Row(w0: bv32, w1: bv32, w2: bv32, w3: bv32)

  /** The four registers of a block. */
  datatype Rows = Rows(a: Row, b: Row, c: Row, d: Row)

  function Add(x: Row, y: Row): Row { Row(Plus(x.w0, y.w0), Plus(x.w1, y.w1), Plus(x.w2, y.w2), Plus(x.w3, y.w3)) }

  function XorRow(x: Row, y: Row): Row {
    Row(Xor32(x.w0, y.w0), Xor32(x.w1, y.w1), Xor32(x.w2, y.w2), Xor32(x.w3, y.w3))
  }

  function RolRow(x: Row, r: bv32): Row
    requires 0 < r < 32
  {
    Row(Rol(x.w0, r), Rol(x.w1, r), Rol(x.w2, r), Rol(x.w3, r))
  }

  /** _mm_shuffle_epi32 with _MM_SHUFFLE(0, 3, 2, 1), (1, 0, 3, 2) and (2, 1, 0, 3). */
  function Shuffle0321(x: Row): Row { Row(x.w1, x.w2, x.w3, x.w0) }
  function Shuffle1032(x: Row): Row { Row(x.w2, x.w3, x.w0, x.w1) }
  function Shuffle2103(x: Row): Row { Row(x.w3, x.w0, x.w1, x.w2) }

  function PermuteRows(k: Rows): Rows { Rows(k.a, Shuffle0321(k.b), Shuffle1032(k.c), Shuffle2103(k.d)) }

  function PermuteRowsInv(k: Rows): Rows { Rows(k.a, Shuffle2103(k.b), Shuffle1032(k.c), Shuffle0321(k.d)) }

  function OddRound(k: Rows): Rows {
    var A := Add(k.a, k.b);
    var D := RolRow(XorRow(k.d, A), 16);
    var C := Add(k.c, D);
    var B := RolRow(XorRow(k.b, C), 12);
    var A' := Add(A, B);
    var D' := RolRow(XorRow(D, A'), 8);
    var C' := Add(C, D');
    var B' := RolRow(XorRow(B, C'), 7);
    Rows(A', B', C', D')
  }

  function EvenRound(k: Rows): Rows { PermuteRowsInv(OddRound(PermuteRows(k))) }

  function DoubleRound(k: Rows): Rows { EvenRound(OddRound(k)) }

  /** _mm_shuffle_epi8 with L8 and L16, on one word: where each byte comes from. */
  function ShuffleBytes(x: bv32, i0: nat, i1: nat, i2: nat, i3: nat): bv32
    requires i0 < 4 && i1 < 4 && i2 < 4 && i3 < 4
  {
    Byte(x, i0) as bv32 | (Byte(x, i1) as bv32 << 8) | (Byte(x, i2) as bv32 << 16) | (Byte(x, i3) as bv32 << 24)
  }

  /** The SSSE3 rotations are those of SSE2. */
  lemma ShufflesRotate(x: bv32)
    ensures ShuffleBytes(x, 3, 0, 1, 2) == Rol(x, 8)
    ensures ShuffleBytes(x, 2, 3, 0, 1) == Rol(x, 16)
  {
  }

  // ---- The row form computes the rounds of the standard

  /** The four rows of a state. */
  function RowsOf(s: Words): Rows {
    Rows(Row(s[0], s[1], s[2], s[3]), Row(s[4], s[5], s[6], s[7]),
         Row(s[8], s[9], s[10], s[11]), Row(s[12], s[13], s[14], s[15]))
  }

  /** Lane i of an odd round is a quarter round. */
  lemma OddRoundLanes(k: Rows)
    ensures var r := OddRound(k);
            Four(r.a.w0, r.b.w0, r.c.w0, r.d.w0) == Quarter(k.a.w0, k.b.w0, k.c.w0, k.d.w0) &&
            Four(r.a.w1, r.b.w1, r.c.w1, r.d.w1) == Quarter(k.a.w1, k.b.w1, k.c.w1, k.d.w1) &&
            Four(r.a.w2, r.b.w2, r.c.w2, r.d.w2) == Quarter(k.a.w2, k.b.w2, k.c.w2, k.d.w2) &&
            Four(r.a.w3, r.b.w3, r.c.w3, r.d.w3) == Quarter(k.a.w3, k.b.w3, k.c.w3, k.d.w3)
  {
    hide Plus, Xor32, Rol;
  }

  lemma Column0(s: Words)
    ensures var k, q := RowsOf(s), Quarter(s[0], s[4], s[8], s[12]);
            RowsOf(QRound(s, 0, 4, 8, 12)) ==
            k.(a := k.a.(w0 := q.a), b := k.b.(w0 := q.b), c := k.c.(w0 := q.c), d := k.d.(w0 := q.d))
  {
    hide Quarter;
  }

  lemma Column1(s: Words)
    ensures var k, q := RowsOf(s), Quarter(s[1], s[5], s[9], s[13]);
            RowsOf(QRound(s, 1, 5, 9, 13)) ==
            k.(a := k.a.(w1 := q.a), b := k.b.(w1 := q.b), c := k.c.(w1 := q.c), d := k.d.(w1 := q.d))
  {
    hide Quarter;
  }

  lemma Column2(s: Words)
    ensures var k, q := RowsOf(s), Quarter(s[2], s[6], s[10], s[14]);
            RowsOf(QRound(s, 2, 6, 10, 14)) ==
            k.(a := k.a.(w2 := q.a), b := k.b.(w2 := q.b), c := k.c.(w2 := q.c), d := k.d.(w2 := q.d))
  {
    hide Quarter;
  }

  lemma Column3(s: Words)
    ensures var k, q := RowsOf(s), Quarter(s[3], s[7], s[11], s[15]);
            RowsOf(QRound(s, 3, 7, 11, 15)) ==
            k.(a := k.a.(w3 := q.a), b := k.b.(w3 := q.b), c := k.c.(w3 := q.c), d := k.d.(w3 := q.d))
  {
    hide Quarter;
  }

  lemma Diagonal0(s: Words)
    ensures var k, q := RowsOf(s), Quarter(s[0], s[5], s[10], s[15]);
            RowsOf(QRound(s, 0, 5, 10, 15)) ==
            k.(a := k.a.(w0 := q.a), b := k.b.(w1 := q.b), c := k.c.(w2 := q.c), d := k.d.(w3 := q.d))
  {
    hide Quarter;
  }

  lemma Diagonal1(s: Words)
    ensures var k, q := RowsOf(s), Quarter(s[1], s[6], s[11], s[12]);
            RowsOf(QRound(s, 1, 6, 11, 12)) ==
            k.(a := k.a.(w1 := q.a), b := k.b.(w2 := q.b), c := k.c.(w3 := q.c), d := k.d.(w0 := q.d))
  {
    hide Quarter;
  }

  lemma Diagonal2(s: Words)
    ensures var k, q := RowsOf(s), Quarter(s[2], s[7], s[8], s[13]);
            RowsOf(QRound(s, 2, 7, 8, 13)) ==
            k.(a := k.a.(w2 := q.a), b := k.b.(w3 := q.b), c := k.c.(w0 := q.c), d := k.d.(w1 := q.d))
  {
    hide Quarter;
  }

  lemma Diagonal3(s: Words)
    ensures var k, q := RowsOf(s), Quarter(s[3], s[4], s[9], s[14]);
            RowsOf(QRound(s, 3, 4, 9, 14)) ==
            k.(a := k.a.(w3 := q.a), b := k.b.(w0 := q.b), c := k.c.(w1 := q.c), d := k.d.(w2 := q.d))
  {
    hide Quarter;
  }

  lemma ColumnsAreOddRound(s: Words)
    ensures RowsOf(ColumnRounds(s)) == OddRound(RowsOf(s))
  {
    hide Quarter, OddRound, QRound;
    OddRoundLanes(RowsOf(s));
    Column0(s);
    var s1 := QRound(s, 0, 4, 8, 12);
    Column1(s1);
    var s2 := QRound(s1, 1, 5, 9, 13);
    Column2(s2);
    var s3 := QRound(s2, 2, 6, 10, 14);
    Column3(s3);
  }

  lemma DiagonalsAreEvenRound(s: Words)
    ensures RowsOf(DiagonalRounds(s)) == EvenRound(RowsOf(s))
  {
    hide Quarter, OddRound, QRound;
    OddRoundLanes(PermuteRows(RowsOf(s)));
    Diagonal0(s);
    var s1 := QRound(s, 0, 5, 10, 15);
    Diagonal1(s1);
    var s2 := QRound(s1, 1, 6, 11, 12);
    Diagonal2(s2);
    var s3 := QRound(s2, 2, 7, 8, 13);
    Diagonal3(s3);
  }

  /** A double round on the four registers is the inner block of the standard. */
  lemma InnerBlockIsDoubleRound(s: Words)
    ensures RowsOf(InnerBlock(s)) == DoubleRound(RowsOf(s))
  {
    hide ColumnRounds, DiagonalRounds, OddRound, EvenRound, RowsOf;
    ColumnsAreOddRound(s);
    DiagonalsAreEvenRound(ColumnRounds(s));
  }

  // ---- The output so far

  /** Of len bytes those below lo and those from hi on are encrypted in t, those between are still to be
      read from s, and what follows them in t is as it was. */
  ghost predicate Progress(s: seq<bv8>, t: seq<bv8>, in0: seq<bv8>, out0: seq<bv8>, start: Words,
                           len: nat, lo: nat, hi: nat) {
    |s| == |in0| >= len && |t| == |out0| >= len && lo <= hi <= len &&
    (forall j :: 0 <= j < len && (j < lo || hi <= j) ==> t[j] == Xor8(in0[j], Stream(start, j))) &&
    (forall j :: lo <= j < hi ==> s[j] == in0[j]) &&
    forall j :: len <= j < |t| ==> t[j] == out0[j]
  }

  lemma ProgressStart(s: seq<bv8>, t: seq<bv8>, start: Words, len: nat)
    requires len <= |s| && len <= |t|
    ensures Progress(s, t, s, t, start, len, 0, len)
  {
  }

  lemma ProgressEnd(s: seq<bv8>, t: seq<bv8>, in0: seq<bv8>, out0: seq<bv8>, start: Words, len: nat, lo: nat)
    requires Progress(s, t, in0, out0, start, len, lo, lo)
    ensures t == Crypted(start, in0[..len]) + out0[len..]
  {
    hide Stream, Xor8;
  }

  /** s and t differ at most in the bytes from lo to hi. */
  ghost predicate SameBut(s: seq<bv8>, t: seq<bv8>, lo: nat, hi: nat) {
    |s| == |t| && forall k :: 0 <= k < |s| && !(lo <= k < hi) ==> t[k] == s[k]
  }

  lemma StreamWord(start: Words, block: nat, i: nat, k: nat)
    requires i < 16 && k < 4
    ensures Stream(start, 64 * block + 4 * i + k) == Byte(Block(After(start, block))[i], k)
  {
    hide Byte, Block, After;
    var j := 64 * block + 4 * i + k;
    assert j / 64 == block && j % 64 == 4 * i + k;
  }

  /** The four bytes of word i of the block are written, into t alone or in place. */
  lemma WordStep(s: seq<bv8>, t: seq<bv8>, s': seq<bv8>, t': seq<bv8>, in0: seq<bv8>, out0: seq<bv8>,
                 start: Words, len: nat, lo: nat, hi: nat, block: nat, i: nat)
    requires Progress(s, t, in0, out0, start, len, lo, hi) && lo + 4 <= hi
    requires i < 16 && lo == 64 * block + 4 * i
    requires SameBut(t, t', lo, lo + 4) && (s' == s || (s == t && s' == t'))
    requires forall k :: 0 <= k < 4 ==> t'[lo + k] == Xor8(s[lo + k], Byte(Block(After(start, block))[i], k))
    ensures Progress(s', t', in0, out0, start, len, lo + 4, hi)
  {
    hide Stream, Xor8, Byte, Block, After;
    StreamWord(start, block, i, 0);
    StreamWord(start, block, i, 1);
    StreamWord(start, block, i, 2);
    StreamWord(start, block, i, 3);
    assert t'[lo + 0] == Xor8(s[lo + 0], Stream(start, lo));
    assert t'[lo + 1] == Xor8(s[lo + 1], Stream(start, lo + 1));
    assert t'[lo + 2] == Xor8(s[lo + 2], Stream(start, lo + 2));
    assert t'[lo + 3] == Xor8(s[lo + 3], Stream(start, lo + 3));
  }

  /** Byte at, the lowest or the highest that is left, is written. */
  lemma ByteStep(s: seq<bv8>, t: seq<bv8>, s': seq<bv8>, t': seq<bv8>, in0: seq<bv8>, out0: seq<bv8>,
                 start: Words, len: nat, lo: nat, hi: nat, at: nat)
    requires Progress(s, t, in0, out0, start, len, lo, hi) && lo <= at < hi
    requires SameBut(t, t', at, at + 1) && (s' == s || (s == t && s' == t'))
    requires t'[at] == Xor8(s[at], Stream(start, at))
    ensures at == lo ==> Progress(s', t', in0, out0, start, len, lo + 1, hi)
    ensures at == hi - 1 ==> Progress(s', t', in0, out0, start, len, lo, hi - 1)
  {
    hide Stream, Xor8;
  }

  // ---- Words in memory

  /** A little-endian store. */
  method storeWord(out: array<bv8>, o: nat, w: bv32)
    requires o + 4 <= out.Length
    modifies out
    ensures forall k :: 0 <= k < 4 ==> out[o + k] == Byte(w, k)
    ensures SameBut(old(out[..]), out[..], o, o + 4)
  {
    hide Byte;
    out[o], out[o + 1], out[o + 2], out[o + 3] := Byte(w, 0), Byte(w, 1), Byte(w, 2), Byte(w, 3);
    assert out[o + 0] == Byte(w, 0);
  }

  lemma ByteXor(x: bv32, y: bv32, k: nat)
    requires k < 4
    ensures Byte(Xor32(x, y), k) == Xor8(Byte(x, k), Byte(y, k))
  {
    if k == 0 {} else if k == 1 {} else if k == 2 {} else {}
  }

  lemma JoinBytes(b0: bv8, b1: bv8, b2: bv8, b3: bv8)
    ensures var w := Join(b0, b1, b2, b3);
            Byte(w, 0) == b0 && Byte(w, 1) == b1 && Byte(w, 2) == b2 && Byte(w, 3) == b3
  {
  }

  lemma LoadXor(s: seq<bv8>, o: nat, w: bv32, k: nat)
    requires o + 4 <= |s| && k < 4
    ensures Byte(Xor32(Load(s, o), w), k) == Xor8(s[o + k], Byte(w, k))
  {
    hide Byte, Join, Xor32, Xor8;
    ByteXor(Load(s, o), w, k);
    JoinBytes(s[o], s[o + 1], s[o + 2], s[o + 3]);
  }

  /** *out_p = *in_p ^ keystream32[i]. */
  method xorWord(out: array<bv8>, inp: array<bv8>, lo: nat, w: bv32, ghost in0: seq<bv8>, ghost out0: seq<bv8>,
                 ghost start: Words, ghost len: nat, ghost block: nat, ghost i: nat)
    requires Progress(inp[..], out[..], in0, out0, start, len, lo, len) && lo + 4 <= len
    requires i < 16 && lo == 64 * block + 4 * i && w == Block(After(start, block))[i]
    modifies out
    ensures Progress(inp[..], out[..], in0, out0, start, len, lo + 4, len)
  {
    hide Progress, Byte, Block, After, Load, Xor8, Xor32;
    ghost var s, t := inp[..], out[..];
    Sizes(s, t, in0, out0, start, len, lo, len);
    forall k | 0 <= k < 4 ensures Byte(Xor32(Load(s, lo), w), k) == Xor8(s[lo + k], Byte(w, k)) {
      LoadXor(s, lo, w, k);
    }
    storeWord(out, lo, Xor32(Load(inp[..], lo), w));
    WordStep(s, t, inp[..], out[..], in0, out0, start, len, lo, len, block, i);
  }

  lemma Sizes(s: seq<bv8>, t: seq<bv8>, in0: seq<bv8>, out0: seq<bv8>, start: Words, len: nat, lo: nat, hi: nat)
    requires Progress(s, t, in0, out0, start, len, lo, hi)
    ensures |s| >= len && |t| >= len && lo <= hi <= len
  {
  }

  // ---- Plain C

  class Context {
    const keystream32: array<bv32>
    const state: array<bv32>
    const key: array<bv8>

    ghost predicate Valid() {
      keystream32.Length == state.Length == 16 && keystream32 != state && key.Length == 32
    }

    /** cc20_init. */
    constructor (keyBytes: array<bv8>)
      requires keyBytes.Length == 32
      ensures Valid() && fresh(keystream32) && fresh(state) && fresh(key) && key[..] == keyBytes[..]
    {
      keystream32 := new bv32[16](i => 0);
      state := new bv32[16](i => 0);
      var k := new bv8[32](i requires 0 <= i < 32 reads keyBytes => keyBytes[i]);
      key := k;
    }
  }

  function Magic(): (m: seq<bv8>)
    ensures |m| == 16
  {
    [0x65, 0x78, 0x70, 0x61, 0x6e, 0x64, 0x20, 0x33, 0x32, 0x2d, 0x62, 0x79, 0x74, 0x65, 0x20, 0x6b]
  }

  /** The bytes of the string are the constants of the standard. */
  lemma MagicWords(i: nat)
    requires i < 4
    ensures Load(Magic(), 4 * i) == Constant(i)
  {
    if i == 0 {} else if i == 1 {} else if i == 2 {} else {}
  }

  /** cc20_init_block. */
  method initBlock(ctx: Context, iv: array<bv8>)
    requires ctx.Valid() && iv.Length == 16
    modifies ctx.state
    ensures ctx.state[..] == Start(ctx.key[..], iv[..])
  {
    hide Load, Magic, Constant;
    ghost var key, nonce := ctx.key[..], iv[..];
    forall i | 0 <= i < 4 ensures Load(Magic(), 4 * i) == Constant(i) {
      MagicWords(i);
    }
    forall i | 0 <= i < 16 {
      ctx.state[i] := if i < 4 then Load(Magic(), 4 * i)
                      else if i < 12 then Load(ctx.key[..], 4 * i - 16) else Load(iv[..], 4 * i - 48);
    }
    assert ctx.key[..] == key && iv[..] == nonce;
    assert forall i :: 0 <= i < 16 ==> ctx.state[i] == Start(key, nonce)[i];
  }

  /** Two of the four lines of CC20_QUARTERROUND. */
  method halfRound(x: array<bv32>, a: nat, b: nat, c: nat, d: nat, r: bv32, r': bv32)
    requires x.Length == 16 && a < b < c < d < 16 && 0 < r < 32 && 0 < r' < 32
    modifies x
    ensures Four(x[a], x[b], x[c], x[d]) == Half(old(Four(x[a], x[b], x[c], x[d])), r, r')
    ensures forall i :: 0 <= i < 16 && i != a && i != b && i != c && i != d ==> x[i] == old(x[i])
  {
    hide Plus, Xor32, Rol;
    x[a] := Plus(x[a], x[b]);
    x[d] := Rol(Xor32(x[d], x[a]), r);
    x[c] := Plus(x[c], x[d]);
    x[b] := Rol(Xor32(x[b], x[c]), r');
  }

  /** CC20_QUARTERROUND, in place. */
  method quarterRound(x: array<bv32>, a: nat, b: nat, c: nat, d: nat)
    requires x.Length == 16 && a < b < c < d < 16
    modifies x
    ensures x[..] == QRound(old(x[..]), a, b, c, d)
  {
    hide Half;
    ghost var s := x[..];
    halfRound(x, a, b, c, d, 16, 12);
    halfRound(x, a, b, c, d, 8, 7);
  }

  /** CC20_DOUBLE_ROUND. */
  method doubleRound(x: array<bv32>)
    requires x.Length == 16
    modifies x
    ensures x[..] == InnerBlock(old(x[..]))
  {
    hide QRound;
    quarterRound(x, 0, 4, 8, 12);
    quarterRound(x, 1, 5, 9, 13);
    quarterRound(x, 2, 6, 10, 14);
    quarterRound(x, 3, 7, 11, 15);
    quarterRound(x, 0, 5, 10, 15);
    quarterRound(x, 1, 6, 11, 12);
    quarterRound(x, 2, 7, 8, 13);
    quarterRound(x, 3, 4, 9, 14);
  }

  method tenDoubleRounds(x: array<bv32>)
    requires x.Length == 16
    modifies x
    ensures x[..] == Rounds(old(x[..]), 10)
  {
    hide InnerBlock;
    ghost var s := x[..];
    doubleRound(x);
    doubleRound(x);
    doubleRound(x);
    doubleRound(x);
    doubleRound(x);
    doubleRound(x);
    doubleRound(x);
    doubleRound(x);
    doubleRound(x);
    doubleRound(x);
  }

  /** cc20_block_next: a key block from the state, and the counter one on. */
  method blockNext(ctx: Context)
    requires ctx.Valid()
    modifies ctx.keystream32, ctx.state
    ensures ctx.keystream32[..] == Block(old(ctx.state[..])) && ctx.state[..] == Bump(old(ctx.state[..]))
  {
    hide Rounds, Plus;
    ghost var s := ctx.state[..];
    forall i | 0 <= i < 16 {
      ctx.keystream32[i] := ctx.state[i];
    }
    assert ctx.keystream32[..] == s;
    tenDoubleRounds(ctx.keystream32);
    ghost var r := ctx.keystream32[..];
    assert ctx.state[..] == s;
    forall i | 0 <= i < 16 {
      ctx.keystream32[i] := Plus(ctx.keystream32[i], ctx.state[i]);
    }
    assert ctx.state[..] == s;
    assert forall i :: 0 <= i < 16 ==> ctx.keystream32[i] == Plus(r[i], s[i]) == Block(s)[i];
    ctx.state[12] := Plus(ctx.state[12], 1);
  }

  /** The sixteen words of a block. */
  method xorBlock(out: array<bv8>, inp: array<bv8>, lo: nat, ks: array<bv32>, ghost in0: seq<bv8>,
                  ghost out0: seq<bv8>, ghost start: Words, ghost len: nat, ghost block: nat)
    requires Progress(inp[..], out[..], in0, out0, start, len, lo, len) && lo + 64 <= len
    requires lo == 64 * block && ks[..] == Block(After(start, block))
    modifies out
    ensures Progress(inp[..], out[..], in0, out0, start, len, lo + 64, len)
  {
    hide Progress, Block, After;
    xorWord(out, inp, lo, ks[0], in0, out0, start, len, block, 0);
    xorWord(out, inp, lo + 4, ks[1], in0, out0, start, len, block, 1);
    xorWord(out, inp, lo + 8, ks[2], in0, out0, start, len, block, 2);
    xorWord(out, inp, lo + 12, ks[3], in0, out0, start, len, block, 3);
    xorWord(out, inp, lo + 16, ks[4], in0, out0, start, len, block, 4);
    xorWord(out, inp, lo + 20, ks[5], in0, out0, start, len, block, 5);
    xorWord(out, inp, lo + 24, ks[6], in0, out0, start, len, block, 6);
    xorWord(out, inp, lo + 28, ks[7], in0, out0, start, len, block, 7);
    xorWord(out, inp, lo + 32, ks[8], in0, out0, start, len, block, 8);
    xorWord(out, inp, lo + 36, ks[9], in0, out0, start, len, block, 9);
    xorWord(out, inp, lo + 40, ks[10], in0, out0, start, len, block, 10);
    xorWord(out, inp, lo + 44, ks[11], in0, out0, start, len, block, 11);
    xorWord(out, inp, lo + 48, ks[12], in0, out0, start, len, block, 12);
    xorWord(out, inp, lo + 52, ks[13], in0, out0, start, len, block, 13);
    xorWord(out, inp, lo + 56, ks[14], in0, out0, start, len, block, 14);
    xorWord(out, inp, lo + 60, ks[15], in0, out0, start, len, block, 15);
  }

  /** The plain C cc20_crypt, also in place: encryption as in section 2.4 of RFC 8439. */
  method crypt(out: array<bv8>, inp: array<bv8>, inLen: nat, iv: array<bv8>, ctx: Context) returns (ret: int)
    requires ctx.Valid() && inLen <= inp.Length && inLen <= out.Length && iv.Length == 16
    modifies out, ctx.keystream32, ctx.state
    ensures ret == 0
    ensures out[..] == Crypted(old(Start(ctx.key[..], iv[..])), old(inp[..inLen])) + old(out[inLen..])
  {
    hide Progress, Block, After, Start, Crypted, Bump, KeyByte;
    ghost var in0, out0, start := inp[..], out[..], Start(ctx.key[..], iv[..]);
    initBlock(ctx, iv);
    ProgressStart(in0, out0, start, inLen);
    AfterNone(start);
    var lo, left := 0, inLen;
    ghost var block := 0;
    while left >= 64
      invariant lo == 64 * block && lo + left == inLen && left >= 0
      invariant ctx.state[..] == After(start, block)
      invariant Progress(inp[..], out[..], in0, out0, start, inLen, lo, inLen)
    {
      blockNext(ctx);
      AfterNext(start, block);
      xorBlock(out, inp, lo, ctx.keystream32, in0, out0, start, inLen, block);
      lo, left, block := lo + 64, left - 64, block + 1;
    }
    if left > 0 {
      blockNext(ctx);
      var at := inLen - left;
      while left > 0
        invariant at + left == inLen && lo <= at
        invariant ctx.keystream32[..] == Block(After(start, block))
        invariant Progress(inp[..], out[..], in0, out0, start, inLen, at, inLen)
      {
        xorByte(out, inp, at, ctx.keystream32, in0, out0, start, inLen, at, inLen, block);
        at, left := at + 1, left - 1;
      }
      lo := at;
    }
    ProgressEnd(inp[..], out[..], in0, out0, start, inLen, inLen);
    ret := 0;
  }

  lemma AfterNone(start: Words)
    ensures After(start, 0) == start
  {
  }

  lemma AfterNext(start: Words, block: nat)
    ensures After(start, block + 1) == Bump(After(start, block))
  {
  }

  /** out[at] = in[at] ^ keystream8[at % 64], for the first or the last byte that is left. */
  method xorByte(out: array<bv8>, inp: array<bv8>, at: nat, ks: array<bv32>, ghost in0: seq<bv8>,
                 ghost out0: seq<bv8>, ghost start: Words, ghost len: nat, ghost lo: nat, ghost hi: nat,
                 ghost block: nat)
    requires Progress(inp[..], out[..], in0, out0, start, len, lo, hi) && lo <= at < hi
    requires at / 64 == block && ks[..] == Block(After(start, block))
    modifies out
    ensures at == lo ==> Progress(inp[..], out[..], in0, out0, start, len, lo + 1, hi)
    ensures at == hi - 1 ==> Progress(inp[..], out[..], in0, out0, start, len, lo, hi - 1)
  {
    hide Progress, Block, After, Byte;
    ghost var s, t := inp[..], out[..];
    Sizes(s, t, in0, out0, start, len, lo, hi);
    assert Stream(start, at) == Byte(ks[..][at % 64 / 4], at % 64 % 4);
    out[at] := Xor8(inp[at], Byte(ks[at % 64 / 4], at % 64 % 4));
    assert SameBut(t, out[..], at, at + 1);
    assert out[..][at] == Xor8(s[at], Stream(start, at));
    assert inp[..] == s || (s == t && inp[..] == out[..]);
    ByteStep(s, t, inp[..], out[..], in0, out0, start, len, lo, hi, at);
  }

  // ---- SSE2

  function LoadRow(s: seq<bv8>, off: nat): Row
    requires off + 16 <= |s|
  {
    Row(Load(s, off), Load(s, off + 4), Load(s, off + 8), Load(s, off + 12))
  }

  /** ONE and TWO. */
  function Ones(n: bv32): Row { Row(n, 0, 0, 0) }

  lemma PlusFacts(x: bv32)
    ensures Plus(x, 0) == x && Plus(Plus(x, 1), 1) == Plus(x, 2)
  {
  }

  lemma PlusAssociates(x: bv32, y: bv32, z: bv32)
    ensures Plus(Plus(x, y), z) == Plus(x, Plus(y, z))
  {
    assert Balanced(x + y, z, x, y + z);
    assert Balanced(Plus(x, y), z, x, Plus(y, z));
  }

  predicate Balanced(a: bv32, z: bv32, x: bv32, b: bv32) { a + z == x + b }

  lemma StartRows(key: seq<bv8>, iv: seq<bv8>)
    requires |key| == 32 && |iv| == 16
    ensures Rows(LoadRow(Magic(), 0), LoadRow(key, 0), LoadRow(key, 16), LoadRow(iv, 0)) == RowsOf(Start(key, iv))
  {
    hide Load, Magic, Constant;
    MagicWords(0);
    MagicWords(1);
    MagicWords(2);
    MagicWords(3);
  }

  lemma BumpRows(s: Words)
    ensures var k := RowsOf(s);
            RowsOf(Bump(s)) == Rows(k.a, k.b, k.c, Add(k.d, Ones(1))) &&
            RowsOf(Bump(Bump(s))) == Rows(k.a, k.b, k.c, Add(k.d, Ones(2)))
  {
    hide Plus;
    PlusFacts(s[12]);
    PlusFacts(s[13]);
    PlusFacts(s[14]);
    PlusFacts(s[15]);
  }

  function AddRows(x: Rows, y: Rows): Rows { Rows(Add(x.a, y.a), Add(x.b, y.b), Add(x.c, y.c), Add(x.d, y.d)) }

  lemma BlockRows(s: Words)
    ensures RowsOf(Block(s)) == AddRows(RowsOf(Rounds(s, 10)), RowsOf(s))
  {
    hide Rounds, Plus;
  }

  lemma RoundRows(s: Words, n: nat)
    ensures RowsOf(Rounds(s, n + 1)) == DoubleRound(RowsOf(Rounds(s, n)))
  {
    hide RowsOf, InnerBlock, DoubleRound;
    InnerBlockIsDoubleRound(Rounds(s, n));
  }

  /** CC20_DOUBLE_ROUND as number n + 1. */
  method doubleRoundRows(k: Rows, ghost s: Words, ghost n: nat) returns (r: Rows)
    requires k == RowsOf(Rounds(s, n))
    ensures r == RowsOf(Rounds(s, n + 1))
  {
    hide RowsOf, Rounds, DoubleRound;
    RoundRows(s, n);
    r := DoubleRound(k);
  }

  /** Ten double rounds on one block. */
  method tenRounds(k: Rows, ghost s: Words) returns (r: Rows)
    requires k == RowsOf(s)
    ensures r == RowsOf(Rounds(s, 10))
  {
    NoRounds(s);
    hide RowsOf, Rounds;
    r := k;
    r := doubleRoundRows(r, s, 0);
    r := doubleRoundRows(r, s, 1);
    r := doubleRoundRows(r, s, 2);
    r := doubleRoundRows(r, s, 3);
    r := doubleRoundRows(r, s, 4);
    r := doubleRoundRows(r, s, 5);
    r := doubleRoundRows(r, s, 6);
    r := doubleRoundRows(r, s, 7);
    r := doubleRoundRows(r, s, 8);
    r := doubleRoundRows(r, s, 9);
  }

  lemma NoRounds(s: Words)
    ensures Rounds(s, 0) == s
  {
  }

  /** Ten double rounds on two blocks, in turn. */
  method tenRoundsTwice(k: Rows, l: Rows, ghost s: Words, ghost t: Words) returns (r: Rows, q: Rows)
    requires k == RowsOf(s) && l == RowsOf(t)
    ensures r == RowsOf(Rounds(s, 10)) && q == RowsOf(Rounds(t, 10))
  {
    NoRounds(s);
    NoRounds(t);
    hide RowsOf, Rounds;
    r, q := k, l;
    r := doubleRoundRows(r, s, 0);
    q := doubleRoundRows(q, t, 0);
    r := doubleRoundRows(r, s, 1);
    q := doubleRoundRows(q, t, 1);
    r := doubleRoundRows(r, s, 2);
    q := doubleRoundRows(q, t, 2);
    r := doubleRoundRows(r, s, 3);
    q := doubleRoundRows(q, t, 3);
    r := doubleRoundRows(r, s, 4);
    q := doubleRoundRows(q, t, 4);
    r := doubleRoundRows(r, s, 5);
    q := doubleRoundRows(q, t, 5);
    r := doubleRoundRows(r, s, 6);
    q := doubleRoundRows(q, t, 6);
    r := doubleRoundRows(r, s, 7);
    q := doubleRoundRows(q, t, 7);
    r := doubleRoundRows(r, s, 8);
    q := doubleRoundRows(q, t, 8);
    r := doubleRoundRows(r, s, 9);
    q := doubleRoundRows(q, t, 9);
  }

  /** STOREXOR, for row n of the block. */
  method storeXor(out: array<bv8>, inp: array<bv8>, lo: nat, x: Row, ghost n: nat, ghost in0: seq<bv8>,
                  ghost out0: seq<bv8>, ghost start: Words, ghost len: nat, ghost block: nat)
    requires Progress(inp[..], out[..], in0, out0, start, len, lo, len) && lo + 16 <= len
    requires n < 4 && lo == 64 * block + 16 * n
    requires var s := Block(After(start, block)); x == Row(s[4 * n], s[4 * n + 1], s[4 * n + 2], s[4 * n + 3])
    modifies out
    ensures Progress(inp[..], out[..], in0, out0, start, len, lo + 16, len)
  {
    hide Progress, Block, After;
    xorWord(out, inp, lo, x.w0, in0, out0, start, len, block, 4 * n);
    xorWord(out, inp, lo + 4, x.w1, in0, out0, start, len, block, 4 * n + 1);
    xorWord(out, inp, lo + 8, x.w2, in0, out0, start, len, block, 4 * n + 2);
    xorWord(out, inp, lo + 12, x.w3, in0, out0, start, len, block, 4 * n + 3);
  }

  method storeXorRows(out: array<bv8>, inp: array<bv8>, lo: nat, k: Rows, ghost in0: seq<bv8>,
                      ghost out0: seq<bv8>, ghost start: Words, ghost len: nat, ghost block: nat)
    requires Progress(inp[..], out[..], in0, out0, start, len, lo, len) && lo + 64 <= len
    requires lo == 64 * block && k == RowsOf(Block(After(start, block)))
    modifies out
    ensures Progress(inp[..], out[..], in0, out0, start, len, lo + 64, len)
  {
    hide Progress, Block, After;
    storeXor(out, inp, lo, k.a, 0, in0, out0, start, len, block);
    storeXor(out, inp, lo + 16, k.b, 1, in0, out0, start, len, block);
    storeXor(out, inp, lo + 32, k.c, 2, in0, out0, start, len, block);
    storeXor(out, inp, lo + 48, k.d, 3, in0, out0, start, len, block);
  }

  /** The loop over pairs of blocks: ONE is added to the counter row before the rounds and after. */
  method twoBlocks(k: Rows, ghost start: Words, ghost block: nat) returns (r: Rows, q: Rows)
    requires k == RowsOf(After(start, block))
    ensures r == RowsOf(Block(After(start, block))) && q == RowsOf(Block(After(start, block + 1)))
  {
    hide Rounds, After, Block, RowsOf, Plus, Bump;
    ghost var s, t := After(start, block), After(start, block + 1);
    AfterNext(start, block);
    BumpRows(s);
    r, q := tenRoundsTwice(k, k.(d := Add(k.d, Ones(1))), s, t);
    BlockRows(s);
    BlockRows(t);
    PlusAssociates(q.d.w0, k.d.w0, 1);
    PlusFacts(Plus(q.d.w1, k.d.w1));
    PlusFacts(Plus(q.d.w2, k.d.w2));
    PlusFacts(Plus(q.d.w3, k.d.w3));
    PlusFacts(k.d.w1);
    PlusFacts(k.d.w2);
    PlusFacts(k.d.w3);
    r := AddRows(r, k);
    q := AddRows(q, k);
    q := q.(d := Add(q.d, Ones(1)));
  }

  method oneBlock(k: Rows, ghost s: Words) returns (r: Rows)
    requires k == RowsOf(s)
    ensures r == RowsOf(Block(s))
  {
    hide Rounds, Block, RowsOf, AddRows;
    r := tenRounds(k, s);
    BlockRows(s);
    r := AddRows(r, k);
  }

  /** The SSE2 cc20_crypt, also in place, has the same contract as the plain one. */
  method cryptSse2(out: array<bv8>, inp: array<bv8>, inLen: nat, iv: array<bv8>, ctx: Context) returns (ret: int)
    requires ctx.Valid() && inLen <= inp.Length && inLen <= out.Length && iv.Length == 16
    modifies out, ctx.keystream32
    ensures ret == 0
    ensures out[..] == Crypted(old(Start(ctx.key[..], iv[..])), old(inp[..inLen])) + old(out[inLen..])
  {
    hide Progress, Block, After, Start, Crypted, Bump, RowsOf, Load, Magic, Plus;
    ghost var in0, out0, start := inp[..], out[..], Start(ctx.key[..], iv[..]);
    var k := Rows(LoadRow(Magic(), 0), LoadRow(ctx.key[..], 0), LoadRow(ctx.key[..], 16), LoadRow(iv[..], 0));
    StartRows(ctx.key[..], iv[..]);
    ProgressStart(in0, out0, start, inLen);
    AfterNone(start);
    var lo, left := 0, inLen;
    ghost var block := 0;
    while left >= 128
      invariant lo == 64 * block && lo + left == inLen && left >= 0
      invariant k == RowsOf(After(start, block))
      invariant Progress(inp[..], out[..], in0, out0, start, inLen, lo, inLen)
    {
      var r, q := twoBlocks(k, start, block);
      storeXorRows(out, inp, lo, r, in0, out0, start, inLen, block);
      storeXorRows(out, inp, lo + 64, q, in0, out0, start, inLen, block + 1);
      AfterNext(start, block);
      AfterNext(start, block + 1);
      BumpRows(After(start, block));
      k := k.(d := Add(k.d, Ones(2)));
      lo, left, block := lo + 128, left - 128, block + 2;
    }
    if left >= 64 {
      var r := oneBlock(k, After(start, block));
      storeXorRows(out, inp, lo, r, in0, out0, start, inLen, block);
      AfterNext(start, block);
      BumpRows(After(start, block));
      k := k.(d := Add(k.d, Ones(1)));
      lo, left, block := lo + 64, left - 64, block + 1;
    }
    if left != 0 {
      var r := oneBlock(k, After(start, block));
      storeKeyRows(ctx.keystream32, r, After(start, block));
      while left > 0
        invariant 0 <= left < 64
        invariant ctx.keystream32[..] == Block(After(start, block))
        invariant Progress(inp[..], out[..], in0, out0, start, inLen, lo, lo + left)
      {
        left := left - 1;
        xorByte(out, inp, lo + left, ctx.keystream32, in0, out0, start, inLen, lo, lo + left + 1, block);
      }
    }
    ProgressEnd(inp[..], out[..], in0, out0, start, inLen, lo);
    ret := 0;
  }

  /** The last block goes to the context. */
  method storeKeyRows(ks: array<bv32>, k: Rows, ghost s: Words)
    requires ks.Length == 16 && k == RowsOf(Block(s))
    modifies ks
    ensures ks[..] == Block(s)
  {
    hide Block;
    ghost var b := Block(s);
    storeRow(ks, 0, k.a, b);
    storeRow(ks, 4, k.b, b);
    storeRow(ks, 8, k.c, b);
    storeRow(ks, 12, k.d, b);
    assert ks[..] == ks[..16] == b[..16] == b;
  }

  /** _mm_storeu_si128. */
  method storeRow(ks: array<bv32>, o: nat, x: Row, ghost b: Words)
    requires ks.Length == 16 && o <= 12 && ks[..o] == b[..o] && x == Row(b[o], b[o + 1], b[o + 2], b[o + 3])
    modifies ks
    ensures ks[..o + 4] == b[..o + 4]
  {
    assert forall i :: 0 <= i < o ==> ks[i] == ks[..o][i] == b[..o][i] == b[i];
    ks[o], ks[o + 1], ks[o + 2], ks[o + 3] := x.w0, x.w1, x.w2, x.w3;
    assert forall i :: 0 <= i < o + 4 ==> ks[i] == b[i];
  }
}
