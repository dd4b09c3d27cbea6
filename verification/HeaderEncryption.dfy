/** src/header_encryption.c, for any block cipher with its inverse, any key stream and any hash. */
module HeaderEncryption {
  import opened Bits

  newtype Byte = b: int | 0 <= b < 256
  type Word = w: int | 0 <= w < 0x1_0000_0000
  type Double = d: int | 0 <= d < 0x1_0000_0000_0000_0000
  type Block = s: seq<Byte> | |s| == 16 witness seq(16, i => 0)

  const MAGIC: Word := 0x6E320000
  const COMMUNITY_SIZE: nat := 20

  function XorByte(x: Byte, y: Byte): Byte {
    assert Pow2(8) == 256;
    XorBound(x as nat, y as nat, 8);
    BitXor(x as nat, y as nat) as Byte
  }

  lemma Width32()
    ensures Pow2(32) == 0x1_0000_0000
  {
    assert Pow2(8) == 256;
    Pow2Add(8, 8);
    Pow2Add(16, 16);
  }

  /** The key stream is added bit by bit. */
  lemma XorByteBits(x: Byte, y: Byte, i: nat)
    ensures BitAt(XorByte(x, y) as nat, i) == (BitAt(x as nat, i) + BitAt(y as nat, i)) % 2
  {
    hide BitXor, BitAt;
    Bitwise(x as nat, y as nat, i);
  }

  /** On 64-bit numbers. */
  function XorDouble(x: Double, y: Double): Double {
    Width64();
    XorBound(x, y, 64);
    BitXor(x, y)
  }

  lemma Width64()
    ensures Pow2(64) == 0x1_0000_0000_0000_0000
  {
    Width32();
    Pow2Add(32, 32);
  }

  function XorWord(x: Word, y: Word): Word {
    Width32();
    XorBound(x, y, 32);
    BitXor(x, y)
  }

  function High(d: Double): Word { d / 0x1_0000_0000 }

  function Low(d: Double): Word { d % 0x1_0000_0000 }

  function Double64(high: Word, low: Word): Double { high * 0x1_0000_0000 + low }

  // ---- Big-endian words in memory

  function Bytes32(w: Word): (b: seq<Byte>)
    ensures |b| == 4
  {
    [(w / 0x100_0000) as Byte, (w / 0x1_0000 % 256) as Byte, (w / 256 % 256) as Byte, (w % 256) as Byte]
  }

  function Load32(s: seq<Byte>, off: nat): Word
    requires off + 4 <= |s|
  {
    s[off] as int * 0x100_0000 + s[off + 1] as int * 0x1_0000 + s[off + 2] as int * 256 + s[off + 3] as int
  }

  lemma LoadBytes(s: seq<Byte>, off: nat, w: Word)
    requires off + 4 <= |s| && s[off..off + 4] == Bytes32(w)
    ensures Load32(s, off) == w
  {
    var b := s[off..off + 4];
    assert s[off] == b[0] && s[off + 1] == b[1] && s[off + 2] == b[2] && s[off + 3] == b[3];
    Digits(w);
  }

  lemma Digits(w: Word)
    ensures w / 0x100_0000 * 0x100_0000 + w / 0x1_0000 % 256 * 0x1_0000 + w / 256 % 256 * 256 + w % 256 == w
  {
  }

  /** s and t differ at most from lo up to hi. */
  ghost predicate SameBut(s: seq<Byte>, t: seq<Byte>, lo: nat, hi: nat) {
    |s| == |t| && forall k :: 0 <= k < |s| && !(lo <= k < hi) ==> t[k] == s[k]
  }

  method copy(packet: array<Byte>, off: nat, bytes: seq<Byte>)
    requires off + |bytes| <= packet.Length
    modifies packet
    ensures packet[off..off + |bytes|] == bytes && SameBut(old(packet[..]), packet[..], off, off + |bytes|)
  {
    forall k | off <= k < off + |bytes| {
      packet[k] := bytes[k - off];
    }
  }

  method store32(packet: array<Byte>, off: nat, w: Word)
    requires off + 4 <= packet.Length
    modifies packet
    ensures packet[off..off + 4] == Bytes32(w) && SameBut(old(packet[..]), packet[..], off, off + 4)
  {
    copy(packet, off, Bytes32(w));
  }

  /** Byte j of what speck_ctr makes of the bytes from off on. */
  function CtrByte(s: seq<Byte>, off: nat, j: nat, K: (Block, nat) -> Byte): Byte
    requires 16 <= |s| && off <= j < |s|
  {
    XorByte(s[j], K(s[..16], j - off))
  }

  /** speck_ctr in place on n bytes from off on, with the first 16 bytes of the packet as the IV. */
  method ctr(packet: array<Byte>, off: nat, n: nat, K: (Block, nat) -> Byte)
    requires 16 <= off && off + n <= packet.Length
    modifies packet
    ensures SameBut(old(packet[..]), packet[..], off, off + n)
    ensures forall j :: off <= j < off + n ==> packet[j] == CtrByte(old(packet[..]), off, j, K)
  {
    var iv := packet[..16];
    forall j | off <= j < off + n {
      packet[j] := XorByte(packet[j], K(iv, j - off));
    }
  }

  // ---- The packet on the wire

  /** Checksum, time stamp (its high half hidden by the low half of the checksum) and random bytes. */
  ghost function PreIv(c: Double, stamp: Double, rnd: Word): Block {
    Bytes32(High(c)) + Bytes32(XorWord(Low(c), High(stamp))) + Bytes32(Low(stamp)) + Bytes32(rnd)
  }

  /** Byte j before the header is encrypted: the magic word with the header length, then the bytes that
      the IV displaces, then the rest of the packet. */
  ghost function PlainByte(p: seq<Byte>, headerLen: nat, j: nat): Byte
    requires 16 <= j < |p|
  {
    if j < 20 then Bytes32((MAGIC + headerLen) % 0x1_0000_0000)[j - 16] else if j < 24 then p[j - 20] else p[j]
  }

  /** The encrypted form of a packet with checksum c. */
  ghost function Sealed(p: seq<Byte>, headerLen: nat, c: Double, stamp: Double, rnd: Word,
                        E: Block -> Block, K: (Block, nat) -> Byte): (q: seq<Byte>)
    requires |p| >= 24
    ensures |q| == |p| && q[..16] == E(PreIv(c, stamp, rnd))
    ensures forall j :: 16 <= j < |p| ==>
              q[j] == if j < headerLen then XorByte(PlainByte(p, headerLen, j), K(q[..16], j - 16))
                      else PlainByte(p, headerLen, j)
  {
    var iv := E(PreIv(c, stamp, rnd));
    var r := iv + seq(|p| - 16, i requires 0 <= i < |p| - 16 =>
      if i + 16 < headerLen then XorByte(PlainByte(p, headerLen, i + 16), K(iv, i))
      else PlainByte(p, headerLen, i + 16));
    assert r[..16] == iv;
    r
  }

  ghost function FirstFour(q: seq<Byte>, K: (Block, nat) -> Byte): (t: seq<Byte>)
    requires |q| >= 20
    ensures |t| == 4 && forall i :: 0 <= i < 4 ==> t[i] == CtrByte(q, 16, 16 + i, K)
  {
    seq(4, i requires 0 <= i < 4 => CtrByte(q, 16, 16 + i, K))
  }

  /** What the first four bytes after the IV say about the length of the header. */
  ghost function Announced(q: seq<Byte>, K: (Block, nat) -> Byte): Word
    requires |q| >= 20
  {
    (Load32(FirstFour(q, K), 0) - MAGIC) % 0x1_0000_0000
  }

  /** The packet with its header decrypted and put back in order. */
  ghost function Restored(q: seq<Byte>, headerLen: nat, community: seq<Byte>, K: (Block, nat) -> Byte): (p: seq<Byte>)
    requires |q| >= 24 && |community| == COMMUNITY_SIZE
    ensures |p| == |q|
  {
    seq(|q|, j requires 0 <= j < |q| =>
      if 4 <= j < 24 then community[j - 4]
      else
        var k := if j < 4 then j + 20 else j;
        if k < headerLen then CtrByte(q, 16, k, K) else q[k])
  }

  // ---- Opening what was sealed

  lemma XorByteTwice(x: Byte, k: Byte)
    ensures XorByte(XorByte(x, k), k) == x
  {
    var a, b := x as nat, k as nat;
    XorCommutes(a, b);
    XorCommutes(BitXor(a, b), b);
    XorCancel(b, a);
  }

  lemma XorWordTwice(x: Word, k: Word)
    ensures XorWord(x, XorWord(x, k)) == k
  {
    XorCancel(x, k);
  }

  /** Decrypting an encrypted byte gives the plain one. */
  lemma OpenByte(p: seq<Byte>, headerLen: nat, q: seq<Byte>, K: (Block, nat) -> Byte, j: nat)
    requires 16 <= j < |p| == |q| && j < headerLen
    requires q[j] == XorByte(PlainByte(p, headerLen, j), K(q[..16], j - 16))
    ensures CtrByte(q, 16, j, K) == PlainByte(p, headerLen, j)
  {
    hide XorByte;
    XorByteTwice(PlainByte(p, headerLen, j), K(q[..16], j - 16));
  }

  lemma AnnouncedLength(p: seq<Byte>, headerLen: nat, c: Double, stamp: Double, rnd: Word,
                        E: Block -> Block, K: (Block, nat) -> Byte)
    requires 24 <= |p| && 20 <= headerLen < 0x1_0000
    ensures Announced(Sealed(p, headerLen, c, stamp, rnd, E, K), K) == headerLen
  {
    hide XorByte, CtrByte, Load32, Bytes32, Sealed, FirstFour;
    var q := Sealed(p, headerLen, c, stamp, rnd, E, K);
    var w: Word := MAGIC + headerLen;
    var t := FirstFour(q, K);
    forall i | 0 <= i < 4 ensures t[i] == Bytes32(w)[i] {
      OpenByte(p, headerLen, q, K, 16 + i);
    }
    assert t[0..4] == Bytes32(w);
    LoadBytes(t, 0, w);
  }

  lemma RestoredPacket(p: seq<Byte>, headerLen: nat, c: Double, stamp: Double, rnd: Word, community: seq<Byte>,
                       E: Block -> Block, K: (Block, nat) -> Byte)
    requires 24 <= |p| && 20 <= headerLen && |community| == COMMUNITY_SIZE && p[4..24] == community
    ensures Restored(Sealed(p, headerLen, c, stamp, rnd, E, K), headerLen, community, K) == p
  {
    hide XorByte, CtrByte, Bytes32, Sealed;
    var q := Sealed(p, headerLen, c, stamp, rnd, E, K);
    forall j | 0 <= j < |p| ensures Restored(q, headerLen, community, K)[j] == p[j] {
      if 4 <= j < 24 {
        assert p[4..24][j - 4] == p[j];
      } else {
        var k := if j < 4 then j + 20 else j;
        if k < headerLen { OpenByte(p, headerLen, q, K, k); }
      }
    }
  }

  /** Word i of the decrypted IV. */
  ghost function Field(q: seq<Byte>, D: Block -> Block, i: nat): Word
    requires |q| >= 16 && i < 4
  {
    Load32(D(q[..16]), 4 * i)
  }

  /** The time stamp, once the checksum is known. */
  ghost function Stamp(q: seq<Byte>, D: Block -> Block, c: Double): Double
    requires |q| >= 16
  {
    Double64(XorWord(Field(q, D, 1), Low(c)), Field(q, D, 2))
  }

  lemma Fields(p: seq<Byte>, headerLen: nat, c: Double, stamp: Double, rnd: Word,
               E: Block -> Block, D: Block -> Block, K: (Block, nat) -> Byte)
    requires |p| >= 24 && forall b :: D(E(b)) == b
    ensures var q := Sealed(p, headerLen, c, stamp, rnd, E, K);
            Field(q, D, 0) == High(c) && Field(q, D, 1) == XorWord(Low(c), High(stamp)) && Field(q, D, 2) == Low(stamp)
  {
    hide Sealed, Bytes32, Load32, XorWord, XorByte;
    var b := PreIv(c, stamp, rnd);
    assert b[0..4] == Bytes32(High(c));
    LoadBytes(b, 0, High(c));
    assert b[4..8] == Bytes32(XorWord(Low(c), High(stamp)));
    LoadBytes(b, 4, XorWord(Low(c), High(stamp)));
    assert b[8..12] == Bytes32(Low(stamp));
    LoadBytes(b, 8, Low(stamp));
  }

  /** The random word is the last of the IV before it is encrypted. */
  lemma RandomWord(p: seq<Byte>, headerLen: nat, c: Double, stamp: Double, rnd: Word,
                   E: Block -> Block, D: Block -> Block, K: (Block, nat) -> Byte)
    requires |p| >= 24 && forall b :: D(E(b)) == b
    ensures Field(Sealed(p, headerLen, c, stamp, rnd, E, K), D, 3) == rnd
  {
    hide Sealed, Bytes32, Load32, XorWord, XorByte;
    var b := PreIv(c, stamp, rnd);
    assert b[12..16] == Bytes32(rnd);
    LoadBytes(b, 12, rnd);
  }

  /** So packets that differ in their random words have different IVs. */
  lemma IvsDiffer(p: seq<Byte>, headerLen: nat, c: Double, stamp: Double, rnd: Word,
                  p': seq<Byte>, headerLen': nat, c': Double, stamp': Double, rnd': Word,
                  E: Block -> Block, D: Block -> Block, K: (Block, nat) -> Byte)
    requires |p| >= 24 && |p'| >= 24 && (forall b :: D(E(b)) == b) && rnd != rnd'
    ensures Sealed(p, headerLen, c, stamp, rnd, E, K)[..16] != Sealed(p', headerLen', c', stamp', rnd', E, K)[..16]
  {
    hide Sealed, Load32;
    RandomWord(p, headerLen, c, stamp, rnd, E, D, K);
    RandomWord(p', headerLen', c', stamp', rnd', E, D, K);
  }

  /** The first four encrypted bytes: "n2" and the header length. */
  lemma MagicBytes(p: seq<Byte>, headerLen: nat)
    requires |p| >= 20 && headerLen < 0x1_0000
    ensures PlainByte(p, headerLen, 16) == 0x6e && PlainByte(p, headerLen, 17) == 0x32
    ensures PlainByte(p, headerLen, 18) as nat * 256 + PlainByte(p, headerLen, 19) as nat == headerLen
  {
  }

  lemma StampRecovered(c: Double, stamp: Double)
    ensures Double64(XorWord(XorWord(Low(c), High(stamp)), Low(c)), Low(stamp)) == stamp
  {
    hide XorWord;
    XorWordCommutes(XorWord(Low(c), High(stamp)), Low(c));
    XorWordTwice(Low(c), High(stamp));
  }

  lemma XorWordCommutes(x: Word, y: Word)
    ensures XorWord(x, y) == XorWord(y, x)
  {
    XorCommutes(x, y);
  }

  /** packet_header_decrypt undoes packet_header_encrypt: for every packet that holds the community name
      and every header length from 20 up to the packet length, the length is recognised, all bytes come
      back, the checksum is found intact and the time stamp is the one that went in. */
  lemma RoundTrip(p: seq<Byte>, packetLen: nat, headerLen: nat, stamp: Double, rnd: Word, community: seq<Byte>,
                  E: Block -> Block, D: Block -> Block, K: (Block, nat) -> Byte, H: seq<Byte> -> Double)
    requires forall b :: D(E(b)) == b
    requires 24 <= packetLen <= |p| && packetLen < 0x1_0000 && 20 <= headerLen <= packetLen
    requires |community| == COMMUNITY_SIZE && p[4..24] == community
    ensures var q := Sealed(p, headerLen, H(p[..packetLen]), stamp, rnd, E, K);
            Announced(q, K) == headerLen &&
            Restored(q, headerLen, community, K) == p &&
            Field(q, D, 0) == High(H(p[..packetLen])) &&
            Stamp(q, D, H(p[..packetLen])) == stamp
  {
    hide Sealed, Announced, Restored, Field, XorWord;
    var c := H(p[..packetLen]);
    AnnouncedLength(p, headerLen, c, stamp, rnd, E, K);
    RestoredPacket(p, headerLen, c, stamp, rnd, community, E, K);
    Fields(p, headerLen, c, stamp, rnd, E, D, K);
    StampRecovered(c, stamp);
  }

  // ---- The code

  /** packet_header_encrypt. The random word, the hash and the two ciphers are parameters. */
  method packetHeaderEncrypt(packet: array<Byte>, headerLen: nat, packetLen: nat, stamp: Double, rnd: Word,
                             E: Block -> Block, K: (Block, nat) -> Byte, H: seq<Byte> -> Double)
    returns (ret: int)
    requires packetLen <= packet.Length && (packetLen >= 24 ==> 16 <= headerLen <= packetLen)
    modifies packet
    ensures ret == if packetLen < 24 then -1 else 0
    ensures packetLen < 24 ==> packet[..] == old(packet[..])
    ensures packetLen >= 24 ==>
              packet[..] == Sealed(old(packet[..]), headerLen, H(old(packet[..packetLen])), stamp, rnd, E, K)
  {
    if packetLen < 24 {
      return -1;
    }
    sealPacket(packet, headerLen, H(packet[..packetLen]), stamp, rnd, E, K);
    ret := 0;
  }

  /** From the checksum on. */
  method sealPacket(packet: array<Byte>, headerLen: nat, checksum: Double, stamp: Double, rnd: Word,
                    E: Block -> Block, K: (Block, nat) -> Byte)
    requires 24 <= packet.Length && 16 <= headerLen <= packet.Length
    modifies packet
    ensures packet[..] == Sealed(old(packet[..]), headerLen, checksum, stamp, rnd, E, K)
  {
    hide Sealed, Bytes32, Load32, XorWord, XorByte, High, Low;
    ghost var p := packet[..];
    copy(packet, 20, packet[0..4]);
    ghost var p1 := packet[..];
    preIv(packet, checksum, stamp, rnd);
    ghost var p2 := packet[..];
    copy(packet, 0, E(packet[..16]));
    ghost var p3 := packet[..];
    store32(packet, 16, (MAGIC + headerLen) % 0x1_0000_0000);
    ghost var p4 := packet[..];
    ctr(packet, 16, headerLen - 16, K);
    SealedInSteps(p, p1, p2, p3, p4, packet[..], headerLen, checksum, stamp, rnd, E, K);
  }

  lemma SealedInSteps(p: seq<Byte>, p1: seq<Byte>, p2: seq<Byte>, p3: seq<Byte>, p4: seq<Byte>, q: seq<Byte>,
             headerLen: nat, c: Double, stamp: Double, rnd: Word, E: Block -> Block, K: (Block, nat) -> Byte)
    requires |p| >= 24 && 16 <= headerLen <= |p|
    requires SameBut(p, p1, 20, 24) && p1[20..24] == p[0..4]
    requires SameBut(p1, p2, 0, 16) && p2[..16] == PreIv(c, stamp, rnd)
    requires SameBut(p2, p3, 0, 16) && p3[0..16] == E(p2[..16])
    requires SameBut(p3, p4, 16, 20) && p4[16..20] == Bytes32((MAGIC + headerLen) % 0x1_0000_0000)
    requires SameBut(p4, q, 16, headerLen) && forall j :: 16 <= j < headerLen ==> q[j] == CtrByte(p4, 16, j, K)
    ensures q == Sealed(p, headerLen, c, stamp, rnd, E, K)
  {
    hide Sealed, PreIv, Bytes32, XorByte;
    var s := Sealed(p, headerLen, c, stamp, rnd, E, K);
    assert q[..16] == p4[..16] == p3[..16] == p3[0..16];
    assert forall j :: 16 <= j < 20 ==> p4[j] == p4[16..20][j - 16];
    assert forall j :: 20 <= j < 24 ==> p1[j] == p1[20..24][j - 20] == p[0..4][j - 20];
    forall j | 16 <= j < |p| ensures p4[j] == PlainByte(p, headerLen, j) {
    }
    forall j | 0 <= j < |p| ensures q[j] == s[j] {
      if j < 16 { assert q[j] == q[..16][j] && s[j] == s[..16][j]; }
    }
  }

  method preIv(packet: array<Byte>, checksum: Double, stamp: Double, rnd: Word)
    requires 24 <= packet.Length
    modifies packet
    ensures SameBut(old(packet[..]), packet[..], 0, 16) && packet[..16] == PreIv(checksum, stamp, rnd)
  {
    hide Bytes32, Load32, XorWord, High, Low;
    store32(packet, 0, High(checksum));
    store32(packet, 4, Low(checksum));
    LoadBytes(packet[..], 4, Low(checksum));
    store32(packet, 4, XorWord(Load32(packet[..], 4), High(stamp)));
    store32(packet, 8, Low(stamp));
    store32(packet, 12, rnd);
  }

  /** c << 32 in 64 bits. */
  function Shl32(c: Double): Double { (c as int * 0x1_0000_0000) % 0x1_0000_0000_0000_0000 }

  /** x ^ (c << 32) touches the high half only. */
  lemma XorShifted(high: Word, low: Word, c: Double)
    ensures XorDouble(Double64(high, low), Shl32(c))
         == Double64(XorWord(high, Low(c)), low)
  {
    hide BitXor;
    Width32();
    XorHigh(32, high, low, Low(c));
    ShiftedOut(c);
  }

  lemma ShiftedOut(c: Double)
    ensures Shl32(c) == 0x1_0000_0000 * Low(c)
  {
    Remainder(c * 0x1_0000_0000, 0x1_0000_0000_0000_0000, High(c), 0x1_0000_0000 * Low(c));
  }

  lemma AnnouncedByTest(q: seq<Byte>, t: seq<Byte>, K: (Block, nat) -> Byte)
    requires |q| >= 20 && |t| == 4 && forall i :: 0 <= i < 4 ==> t[i] == CtrByte(q, 16, 16 + i, K)
    ensures (Load32(t, 0) - MAGIC) % 0x1_0000_0000 == Announced(q, K)
  {
    hide Load32, CtrByte;
    assert t == FirstFour(q, K);
  }

  /** packet_header_decrypt, in place. For a header length below 16 the unsigned difference to 16 wraps to
      almost 2^32, far beyond any packet. */
  method packetHeaderDecrypt(packet: array<Byte>, packetLen: nat, community: seq<Byte>, stamp0: Double,
                             D: Block -> Block, K: (Block, nat) -> Byte, H: seq<Byte> -> Double)
    returns (ret: int, stamp: Double)
    requires 24 <= packet.Length && packetLen <= packet.Length && |community| == COMMUNITY_SIZE
    requires Announced(packet[..], K) >= 16
    modifies packet
    ensures Announced(old(packet[..]), K) > packetLen ==> ret == 0 && packet[..] == old(packet[..])
    ensures Announced(old(packet[..]), K) <= packetLen ==>
              packet[..] == Restored(old(packet[..]), Announced(old(packet[..]), K), community, K)
    ensures Announced(old(packet[..]), K) <= packetLen ==>
              ret == if High(H(packet[..packetLen])) == Field(old(packet[..]), D, 0) then 1 else 0
    ensures ret == 1 ==> stamp == Stamp(old(packet[..]), D, H(packet[..packetLen]))
    ensures ret == 0 ==>
              stamp == if Announced(old(packet[..]), K) > packetLen then stamp0
                       else Double64(Field(old(packet[..]), D, 1), Field(old(packet[..]), D, 2))
  {
    hide Announced, Restored, Field, Load32, CtrByte, XorByte, XorWord, XorDouble, Double64, High, Low, Shl32;
    stamp := stamp0;
    ghost var q := packet[..];
    var t := [CtrByte(packet[..], 16, 16, K), CtrByte(packet[..], 16, 17, K),
              CtrByte(packet[..], 16, 18, K), CtrByte(packet[..], 16, 19, K)];
    AnnouncedByTest(q, t, K);
    var headerLen := (Load32(t, 0) - MAGIC) % 0x1_0000_0000;
    if headerLen <= packetLen {
      var checksumHigh;
      checksumHigh, stamp := openPacket(packet, headerLen, community, D, K);
      var checksum := H(packet[..packetLen]);
      if High(checksum) != checksumHigh {
        return 0, stamp;
      }
      XorShifted(Field(q, D, 1), Field(q, D, 2), checksum);
      stamp := XorDouble(stamp, Shl32(checksum));
      ret := 1;
    } else {
      ret := 0;
    }
  }

  /** The header is decrypted, the two fields are read and the order of the bytes is restored. */
  method openPacket(packet: array<Byte>, headerLen: nat, community: seq<Byte>,
                    D: Block -> Block, K: (Block, nat) -> Byte)
    returns (checksumHigh: Word, stamp: Double)
    requires 24 <= packet.Length && 16 <= headerLen <= packet.Length && |community| == COMMUNITY_SIZE
    modifies packet
    ensures packet[..] == Restored(old(packet[..]), headerLen, community, K)
    ensures checksumHigh == Field(old(packet[..]), D, 0)
    ensures stamp == Double64(Field(old(packet[..]), D, 1), Field(old(packet[..]), D, 2))
  {
    hide Restored, Load32, CtrByte, XorByte, Double64;
    ghost var q := packet[..];
    ctr(packet, 16, headerLen - 16, K);
    ghost var q1 := packet[..];
    assert q1[..16] == q[..16];
    copy(packet, 0, D(packet[..16]));
    ghost var q2 := packet[..];
    LoadAlike(D(q[..16]), q2, 0);
    LoadAlike(D(q[..16]), q2, 4);
    LoadAlike(D(q[..16]), q2, 8);
    stamp := Double64(Load32(packet[..], 4), Load32(packet[..], 8));
    checksumHigh := Load32(packet[..], 0);
    copy(packet, 0, packet[20..24]);
    ghost var q3 := packet[..];
    copy(packet, 4, community);
    RestoredInSteps(q, q1, q2, q3, packet[..], headerLen, community, D, K);
  }

  lemma LoadAlike(b: Block, s: seq<Byte>, off: nat)
    requires |s| >= 16 && s[0..16] == b && off + 4 <= 16
    ensures Load32(s, off) == Load32(b, off)
  {
    assert forall i :: 0 <= i < 16 ==> s[i] == s[0..16][i];
  }

  lemma RestoredInSteps(q: seq<Byte>, q1: seq<Byte>, q2: seq<Byte>, q3: seq<Byte>, p: seq<Byte>,
                        headerLen: nat, community: seq<Byte>, D: Block -> Block, K: (Block, nat) -> Byte)
    requires |q| >= 24 && 16 <= headerLen <= |q| && |community| == COMMUNITY_SIZE
    requires SameBut(q, q1, 16, headerLen) && forall j :: 16 <= j < headerLen ==> q1[j] == CtrByte(q, 16, j, K)
    requires SameBut(q1, q2, 0, 16)
    requires SameBut(q2, q3, 0, 4) && q3[0..4] == q2[20..24]
    requires SameBut(q3, p, 4, 24) && p[4..24] == community
    ensures p == Restored(q, headerLen, community, K)
  {
    hide CtrByte;
    assert forall j :: 0 <= j < 4 ==> q3[j] == q3[0..4][j] == q2[20..24][j];
    assert forall j :: 4 <= j < 24 ==> p[j] == p[4..24][j - 4];
  }

  /** Encrypting and decrypting in place: the packet is recognised, every byte of it is as before, and the
      time stamp comes out. */
  method encryptDecrypt(packet: array<Byte>, headerLen: nat, packetLen: nat, stamp: Double, rnd: Word,
                        community: seq<Byte>, E: Block -> Block, D: Block -> Block, K: (Block, nat) -> Byte,
                        H: seq<Byte> -> Double)
    returns (ret: int, stamp': Double)
    requires forall b :: D(E(b)) == b
    requires 24 <= packetLen <= packet.Length && packetLen < 0x1_0000 && 20 <= headerLen <= packetLen
    requires |community| == COMMUNITY_SIZE && packet[4..24] == community
    modifies packet
    ensures ret == 1 && packet[..] == old(packet[..]) && stamp' == stamp
  {
    hide Sealed, Announced, Restored, Field, Stamp, High;
    ghost var p := packet[..];
    assert p[4..24] == community && p[..packetLen] == packet[..packetLen];
    RoundTrip(p, packetLen, headerLen, stamp, rnd, community, E, D, K, H);
    var sealed := packetHeaderEncrypt(packet, headerLen, packetLen, stamp, rnd, E, K, H);
    ret, stamp' := packetHeaderDecrypt(packet, packetLen, community, 0, D, K, H);
    assert packet[..packetLen] == packet[..][..packetLen];
  }
}
