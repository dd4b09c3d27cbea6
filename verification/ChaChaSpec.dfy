/** ChaCha20 as in sections 2.1 to 2.4 of RFC 8439, on states of sixteen words. */
module ChaChaSpec {

  // ---- Arithmetic on 32-bit words

  function Plus(x: bv32, y: bv32): bv32 { x + y }

  function Xor32(x: bv32, y: bv32): bv32 { x ^ y }

  function Rol(x: bv32, r: bv32): bv32
    requires 0 < r < 32
  {
    (x << r) | (x >> (32 - r))
  }

  function Xor8(x: bv8, y: bv8): bv8 { x ^ y }

  lemma Rol16(x: bv32)
    ensures Rol(x, 16) & 0xffff == x >> 16 && Rol(x, 16) >> 16 == x & 0xffff
  {
  }

  lemma Rol12(x: bv32)
    ensures Rol(x, 12) & 0xfff == x >> 20 && Rol(x, 12) >> 12 == x & 0xfffff
  {
  }

  lemma Rol8(x: bv32)
    ensures Rol(x, 8) & 0xff == x >> 24 && Rol(x, 8) >> 8 == x & 0xffffff
  {
  }

  lemma Rol7(x: bv32)
    ensures Rol(x, 7) & 0x7f == x >> 25 && Rol(x, 7) >> 7 == x & 0x1ffffff
  {
  }

  /** The four rotations: the bits that leave at the top come in at the bottom, the others move up. */
  lemma RolRotates(x: bv32)
    ensures Rol(x, 16) & 0xffff == x >> 16 && Rol(x, 16) >> 16 == x & 0xffff
    ensures Rol(x, 12) & 0xfff == x >> 20 && Rol(x, 12) >> 12 == x & 0xfffff
    ensures Rol(x, 8) & 0xff == x >> 24 && Rol(x, 8) >> 8 == x & 0xffffff
    ensures Rol(x, 7) & 0x7f == x >> 25 && Rol(x, 7) >> 7 == x & 0x1ffffff
  {
    hide Rol;
    Rol16(x);
    Rol12(x);
    Rol8(x);
    Rol7(x);
  }

  /** Exclusive or has the bits that are in one of the two. */
  lemma XorIsExclusive(x: bv32, y: bv32, a: bv8, b: bv8)
    ensures Xor32(x, y) == (x | y) & !(x & y) && Xor8(a, b) == (a | b) & !(a & b)
  {
  }

  // ---- The quarter round (section 2.1)

  datatype Four = Four(a: bv32, b: bv32, c: bv32, d: bv32)

  /** Two of the four lines of the quarter round: a += b; d ^= a; d <<<= r; c += d; b ^= c; b <<<= r'. */
  function Half(q: Four, r: bv32, r': bv32): Four
    requires 0 < r < 32 && 0 < r' < 32
  {
    var a := Plus(q.a, q.b);
    var d := Rol(Xor32(q.d, a), r);
    var c := Plus(q.c, d);
    Four(a, Rol(Xor32(q.b, c), r'), c, d)
  }

  function Quarter(a: bv32, b: bv32, c: bv32, d: bv32): Four { Half(Half(Four(a, b, c, d), 16, 12), 8, 7) }

  // ---- Rounds on the state (sections 2.2 and 2.3)

  type Words = s: seq<bv32> | |s| == 16 witness seq(16, i => 0)

  /** QUARTERROUND(x, y, z, w) on the state. */
  function QRound(s: Words, x: nat, y: nat, z: nat, w: nat): Words
    requires x < 16 && y < 16 && z < 16 && w < 16
  {
    var q := Quarter(s[x], s[y], s[z], s[w]);
    s[x := q.a][y := q.b][z := q.c][w := q.d]
  }

  function ColumnRounds(s: Words): Words {
    QRound(QRound(QRound(QRound(s, 0, 4, 8, 12), 1, 5, 9, 13), 2, 6, 10, 14), 3, 7, 11, 15)
  }

  function DiagonalRounds(s: Words): Words {
    QRound(QRound(QRound(QRound(s, 0, 5, 10, 15), 1, 6, 11, 12), 2, 7, 8, 13), 3, 4, 9, 14)
  }

  function InnerBlock(s: Words): Words { DiagonalRounds(ColumnRounds(s)) }

  ghost function Rounds(s: Words, n: nat): Words
    decreases n
  {
    if n == 0 then s else InnerBlock(Rounds(s, n - 1))
  }

  ghost function Sum(s: Words, t: Words): (r: Words)
    ensures forall i :: 0 <= i < 16 ==> r[i] == Plus(s[i], t[i])
  {
    seq(16, i requires 0 <= i < 16 => Plus(s[i], t[i]))
  }

  /** The block function: ten double rounds, and the state added in. */
  ghost function Block(s: Words): Words { Sum(Rounds(s, 10), s) }

  /** Byte k of a word, least significant first. */
  function Byte(w: bv32, k: nat): bv8
    requires k < 4
  {
    if k == 0 then (w & 0xff) as bv8
    else if k == 1 then ((w >> 8) & 0xff) as bv8
    else if k == 2 then ((w >> 16) & 0xff) as bv8
    else (w >> 24) as bv8
  }

  /** Byte k of the serialized block. */
  ghost function KeyByte(s: Words, k: nat): bv8
    requires k < 64
  {
    Byte(Block(s)[k / 4], k % 4)
  }

  // ---- Encryption (section 2.4)

  /** The counter is word 12, and wraps around. */
  function Bump(s: Words): Words { s[12 := Plus(s[12], 1)] }

  ghost function After(s: Words, n: nat): Words {
    if n == 0 then s else Bump(After(s, n - 1))
  }

  /** Byte j of the key stream from the state s on. */
  ghost function Stream(s: Words, j: nat): bv8 { KeyByte(After(s, j / 64), j % 64) }

  ghost function Crypted(s: Words, bytes: seq<bv8>): (r: seq<bv8>)
    ensures |r| == |bytes| && forall j :: 0 <= j < |r| ==> r[j] == Xor8(bytes[j], Stream(s, j))
  {
    seq(|bytes|, j requires 0 <= j < |bytes| => Xor8(bytes[j], Stream(s, j)))
  }

  lemma XorTwice(x: bv8, k: bv8)
    ensures Xor8(Xor8(x, k), k) == x
  {
  }

  /** Encrypting twice from the same state gives the bytes back. */
  lemma CryptTwice(s: Words, bytes: seq<bv8>)
    ensures Crypted(s, Crypted(s, bytes)) == bytes
  {
    hide Xor8, Stream;
    forall j | 0 <= j < |bytes| ensures Crypted(s, Crypted(s, bytes))[j] == bytes[j] {
      XorTwice(bytes[j], Stream(s, j));
    }
  }

  /** Only the counter differs from block to block, and it is one higher each time. */
  lemma {:induction false} OnlyCounter(s: Words, n: nat)
    ensures forall i :: 0 <= i < 16 && i != 12 ==> After(s, n)[i] == s[i]
    ensures After(s, n + 1)[12] == After(s, n)[12] + 1
  {
    if n > 0 { OnlyCounter(s, n - 1); }
  }

  // ---- The initial state (section 2.3): constants, key, then counter and nonce

  function Join(b0: bv8, b1: bv8, b2: bv8, b3: bv8): bv32 {
    b0 as bv32 | (b1 as bv32 << 8) | (b2 as bv32 << 16) | (b3 as bv32 << 24)
  }

  /** Four bytes as a little-endian word. */
  function Load(s: seq<bv8>, off: nat): bv32
    requires off + 4 <= |s|
  {
    Join(s[off], s[off + 1], s[off + 2], s[off + 3])
  }

  function Constant(i: nat): bv32
    requires i < 4
  {
    if i == 0 then 0x61707865 else if i == 1 then 0x3320646e else if i == 2 then 0x79622d32 else 0x6b206574
  }

  ghost function Start(key: seq<bv8>, iv: seq<bv8>): (s: Words)
    requires |key| == 32 && |iv| == 16
    ensures forall i :: 0 <= i < 4 ==> s[i] == Constant(i)
    ensures forall i :: 4 <= i < 12 ==> s[i] == Load(key, 4 * i - 16)
    ensures forall i :: 12 <= i < 16 ==> s[i] == Load(iv, 4 * i - 48)
  {
    seq(16, i requires 0 <= i < 16 =>
      if i < 4 then Constant(i) else if i < 12 then Load(key, 4 * i - 16) else Load(iv, 4 * i - 48))
  }
}
