/** The six-bit key codec of src/auth.c. */
module Auth {
  import opened Bits

  type Byte = b: int | 0 <= b < 256
  type Sextet = s: int | 0 <= s < 64

  // ---- The tables

  /** b2a: the character for six bits. */
  function B2a(s: nat): nat
    requires s < 64
  {
    match s
    case 0 => 0x30 case 1 => 0x31 case 2 => 0x32 case 3 => 0x33 case 4 => 0x34 case 5 => 0x35
    case 6 => 0x36 case 7 => 0x37 case 8 => 0x38 case 9 => 0x39 case 10 => 0x41 case 11 => 0x42
    case 12 => 0x43 case 13 => 0x44 case 14 => 0x45 case 15 => 0x46 case 16 => 0x47 case 17 => 0x48
    case 18 => 0x49 case 19 => 0x4a case 20 => 0x4b case 21 => 0x4c case 22 => 0x4d case 23 => 0x4e
    case 24 => 0x4f case 25 => 0x50 case 26 => 0x51 case 27 => 0x52 case 28 => 0x53 case 29 => 0x54
    case 30 => 0x55 case 31 => 0x56 case 32 => 0x57 case 33 => 0x58 case 34 => 0x59 case 35 => 0x5a
    case 36 => 0x61 case 37 => 0x62 case 38 => 0x63 case 39 => 0x64 case 40 => 0x65 case 41 => 0x66
    case 42 => 0x67 case 43 => 0x68 case 44 => 0x69 case 45 => 0x6a case 46 => 0x6b case 47 => 0x6c
    case 48 => 0x6d case 49 => 0x6e case 50 => 0x6f case 51 => 0x70 case 52 => 0x71 case 53 => 0x72
    case 54 => 0x73 case 55 => 0x74 case 56 => 0x75 case 57 => 0x76 case 58 => 0x77 case 59 => 0x78
    case 60 => 0x79 case 61 => 0x7a case 62 => 0x2b case 63 => 0x2d
  }

  /** a2b: the six bits for the characters from 0x20 on, 0xff for others; the rest of the table is 0. */
  function A2b(i: nat): nat
    requires i < 256
  {
    match i
    case 0 => 0xff case 1 => 0xff case 2 => 0xff case 3 => 0xff case 4 => 0xff case 5 => 0xff
    case 6 => 0xff case 7 => 0xff case 8 => 0xff case 9 => 0xff case 10 => 0xff case 11 => 0x3e
    case 12 => 0xff case 13 => 0x3f case 14 => 0xff case 15 => 0xff case 16 => 0x00 case 17 => 0x01
    case 18 => 0x02 case 19 => 0x03 case 20 => 0x04 case 21 => 0x05 case 22 => 0x06 case 23 => 0x07
    case 24 => 0x08 case 25 => 0x09 case 26 => 0xff case 27 => 0xff case 28 => 0x3e case 29 => 0xff
    case 30 => 0x3f case 31 => 0xff case 32 => 0xff case 33 => 0x0a case 34 => 0x0b case 35 => 0x0c
    case 36 => 0x0d case 37 => 0x0e case 38 => 0x0f case 39 => 0x10 case 40 => 0x11 case 41 => 0x12
    case 42 => 0x13 case 43 => 0x14 case 44 => 0x15 case 45 => 0x16 case 46 => 0x17 case 47 => 0x18
    case 48 => 0x19 case 49 => 0x1a case 50 => 0x1b case 51 => 0x1c case 52 => 0x1d case 53 => 0x1e
    case 54 => 0x1f case 55 => 0x20 case 56 => 0x21 case 57 => 0x22 case 58 => 0x23 case 59 => 0xff
    case 60 => 0xff case 61 => 0xff case 62 => 0xff case 63 => 0xff case 64 => 0xff case 65 => 0x24
    case 66 => 0x25 case 67 => 0x26 case 68 => 0x27 case 69 => 0x28 case 70 => 0x29 case 71 => 0x2a
    case 72 => 0x2b case 73 => 0x2c case 74 => 0x2d case 75 => 0x2e case 76 => 0x2f case 77 => 0x30
    case 78 => 0x31 case 79 => 0x32 case 80 => 0x33 case 81 => 0x34 case 82 => 0x35 case 83 => 0x36
    case 84 => 0x37 case 85 => 0x38 case 86 => 0x39 case 87 => 0x3a case 88 => 0x3b case 89 => 0x3c
    case 90 => 0x3d case 91 => 0xff case 92 => 0xff case 93 => 0xff case 94 => 0xff case 95 => 0xff
    case _ => 0
  }

  /** The alphabet: digits, capital letters, small letters, plus and minus. */
  lemma B2aRanges(s: Sextet)
    ensures B2a(s) == if s < 10 then 0x30 + s else if s < 36 then 0x41 + s - 10 else if s < 62 then 0x61 + s - 36
                      else if s == 62 then 0x2b else 0x2d
  {
  }

  lemma A2bRanges(i: nat)
    requires i < 256
    ensures A2b(i) == if i == 11 || i == 28 then 62 else if i == 13 || i == 30 then 63
                      else if 16 <= i < 26 then i - 16 else if 33 <= i < 59 then i - 23
                      else if 65 <= i < 91 then i - 29 else if i < 96 then 0xff else 0
  {
  }

  /** Each character of the alphabet reads back as its six bits. */
  lemma AlphabetReadsBack(s: Sextet)
    ensures 0x20 < B2a(s) < 0x80 && A2b(B2a(s) - 0x20) == s
  {
    hide B2a, A2b;
    B2aRanges(s);
    A2bRanges(B2a(s) - 0x20);
  }

  /** The test at a2b[ch], which looks 0x20 entries past the character, rejects no character of the
      alphabet. */
  lemma AlphabetPasses(s: Sextet)
    ensures 0x20 < B2a(s) < 0x80 && A2b(B2a(s)) != 0xff
  {
    hide B2a, A2b;
    B2aRanges(s);
    A2bRanges(B2a(s));
  }

  // ---- What the text of a key is

  ghost function ByteAt(x: seq<Byte>, i: nat): Byte { if i < |x| then x[i] else 0 }

  /** Six bits number k, most significant first, with zeros behind the end. */
  ghost function SextetAt(x: seq<Byte>, k: nat): Sextet {
    var q := k / 4 * 3;
    if k % 4 == 0 then ByteAt(x, q) as int / 4
    else if k % 4 == 1 then ByteAt(x, q) as int % 4 * 16 + ByteAt(x, q + 1) as int / 16
    else if k % 4 == 2 then ByteAt(x, q + 1) as int % 16 * 4 + ByteAt(x, q + 2) as int / 64
    else ByteAt(x, q + 2) as int % 64
  }

  /** The number of characters for n bytes: the ceiling of 8n / 6. */
  function TextLength(n: nat): nat { (8 * n + 5) / 6 }

  ghost function Encoded(x: seq<Byte>): (y: seq<Sextet>)
    ensures |y| == TextLength(|x|) && forall k :: 0 <= k < |y| ==> y[k] == SextetAt(x, k)
  {
    seq(TextLength(|x|), k requires 0 <= k < TextLength(|x|) => SextetAt(x, k))
  }

  /** Byte j of what c sextets decode to. */
  ghost function DecodedAt(y: seq<Sextet>, j: nat): Byte
    requires j < 3 * |y| / 4
  {
    var q := j / 3 * 4;
    if j % 3 == 0 then y[q] as int * 4 + y[q + 1] as int / 16
    else if j % 3 == 1 then y[q + 1] as int % 16 * 16 + y[q + 2] as int / 4
    else y[q + 2] as int % 4 * 64 + y[q + 3] as int
  }

  ghost function Decoded(y: seq<Sextet>): (x: seq<Byte>)
    ensures |x| == 3 * |y| / 4 && forall j :: 0 <= j < |x| ==> x[j] == DecodedAt(y, j)
  {
    seq(3 * |y| / 4, j requires 0 <= j < 3 * |y| / 4 => DecodedAt(y, j))
  }

  lemma Group(x: seq<Byte>, q: nat)
    ensures SextetAt(x, 4 * q) == ByteAt(x, 3 * q) as int / 4
    ensures SextetAt(x, 4 * q + 1) == ByteAt(x, 3 * q) as int % 4 * 16 + ByteAt(x, 3 * q + 1) as int / 16
    ensures SextetAt(x, 4 * q + 2) == ByteAt(x, 3 * q + 1) as int % 16 * 4 + ByteAt(x, 3 * q + 2) as int / 64
    ensures SextetAt(x, 4 * q + 3) == ByteAt(x, 3 * q + 2) as int % 64
  {
    hide ByteAt;
    QuarterIndex(q, 0);
    QuarterIndex(q, 1);
    QuarterIndex(q, 2);
    QuarterIndex(q, 3);
  }

  lemma QuarterIndex(q: nat, r: nat)
    requires r < 4
    ensures (4 * q + r) / 4 * 3 == 3 * q && (4 * q + r) % 4 == r
  {
  }

  lemma BytesBack(a: Byte, b: Byte, c: Byte)
    ensures a / 4 * 4 + (a % 4 * 16 + b / 16) / 16 == a
    ensures (a % 4 * 16 + b / 16) % 16 * 16 + (b % 16 * 4 + c / 64) / 4 == b
    ensures (b % 16 * 4 + c / 64) % 4 * 64 + c % 64 == c
  {
  }

  lemma RoundTripAt(x: seq<Byte>, j: nat)
    requires j < |x| && 3 * TextLength(|x|) / 4 == |x|
    ensures DecodedAt(Encoded(x), j) == x[j]
  {
    hide SextetAt;
    var q, y := j / 3, Encoded(x);
    Group(x, q);
    BytesBack(ByteAt(x, 3 * q), ByteAt(x, 3 * q + 1), ByteAt(x, 3 * q + 2));
    if j % 3 == 0 {
      assert y[4 * q] == SextetAt(x, 4 * q) && y[4 * q + 1] == SextetAt(x, 4 * q + 1);
    } else if j % 3 == 1 {
      assert y[4 * q + 1] == SextetAt(x, 4 * q + 1) && y[4 * q + 2] == SextetAt(x, 4 * q + 2);
    } else {
      assert y[4 * q + 2] == SextetAt(x, 4 * q + 2) && y[4 * q + 3] == SextetAt(x, 4 * q + 3);
    }
  }

  /** Decoding the text of a key gives exactly its bytes, for any length. */
  lemma RoundTrip(x: seq<Byte>)
    ensures Decoded(Encoded(x)) == x
  {
    hide DecodedAt, Encoded;
    assert 3 * TextLength(|x|) / 4 == |x|;
    forall j | 0 <= j < |x| ensures Decoded(Encoded(x))[j] == x[j] {
      RoundTripAt(x, j);
    }
  }

  // ---- The loops

  ghost function Text(y: seq<Sextet>): (t: seq<Byte>)
    ensures |t| == |y| && forall k :: 0 <= k < |y| ==> t[k] == B2a(y[k])
  {
    seq(|y|, k requires 0 <= k < |y| => AlphabetReadsBack(y[k]); B2a(y[k]))
  }

  /** The first n characters of the text of x are in t. */
  ghost predicate Written(t: seq<Byte>, x: seq<Byte>, n: nat) {
    n <= |t| && forall k :: 0 <= k < n ==> t[k] == B2a(SextetAt(x, k))
  }

  lemma WrittenOneMore(t: seq<Byte>, t': seq<Byte>, x: seq<Byte>, n: nat)
    requires Written(t, x, n) && n < |t| == |t'| && t' == t[n := B2a(SextetAt(x, n))]
    ensures Written(t', x, n + 1)
  {
    hide SextetAt, B2a;
  }

  lemma WrittenAll(t: seq<Byte>, x: seq<Byte>)
    requires Written(t, x, TextLength(|x|))
    ensures t[..TextLength(|x|)] == Text(Encoded(x))
  {
    hide SextetAt, B2a;
  }

  lemma NothingWritten(t: seq<Byte>, x: seq<Byte>)
    ensures Written(t, x, 0)
  {
  }

  /** bin_to_ascii: the text and a closing zero. */
  method binToAscii(out: array<Byte>, inp: array<Byte>, inLen: nat) returns (ret: int)
    requires inLen <= inp.Length && TextLength(inLen) < out.Length && out != inp
    modifies out
    ensures ret == 0
    ensures out[..TextLength(inLen)] == Text(Encoded(inp[..inLen])) && out[TextLength(inLen)] == 0
    ensures out[TextLength(inLen) + 1..] == old(out[TextLength(inLen) + 1..])
  {
    hide SextetAt, B2a, Encoded, Text, Written, Six, ByteAt;
    ghost var x := inp[..inLen];
    var bitCount, outCount := 0, 0;
    NothingWritten(out[..], x);
    while bitCount < 8 * inLen
      invariant bitCount == 6 * outCount && outCount <= TextLength(inLen)
      invariant Written(out[..], x, outCount)
      invariant out[TextLength(inLen) + 1..] == old(out[TextLength(inLen) + 1..])
    {
      SextetOfBits(x, outCount);
      ByteAfter(x, bitCount);
      var next: Byte := if bitCount + 8 < 8 * inLen then inp[bitCount / 8 + 1] else 0;
      var six := sextet(inp[bitCount / 8], next, bitCount % 8);
      AlphabetReadsBack(six);
      ghost var t := out[..];
      out[outCount] := B2a(six);
      WrittenOneMore(t, out[..], x, outCount);
      outCount := outCount + 1;
      bitCount := bitCount + 6;
    }
    WrittenAll(out[..], x);
    out[outCount] := 0;
    ret := 0;
  }

  lemma ByteAfter(x: seq<Byte>, bitCount: nat)
    requires bitCount < 8 * |x|
    ensures ByteAt(x, bitCount / 8 + 1) == if bitCount + 8 < 8 * |x| then x[bitCount / 8 + 1] else 0
  {
  }

  /** b << n in a byte, for the shifts that occur. */
  function Shl8(b: Byte, n: nat): nat
    requires n < 8 && n % 2 == 0
  {
    if n == 0 then b else if n == 2 then b as int * 4 % 256 else if n == 4 then b as int * 16 % 256
    else b as int * 64 % 256
  }

  /** b >> n. */
  function Shr8(b: Byte, n: nat): nat
    requires 0 < n <= 8 && n % 2 == 0
  {
    if n == 8 then 0 else if n == 6 then b as int / 64 else if n == 4 then b as int / 16 else b as int / 4
  }

  /** The two neighbouring bytes are shifted together and the upper six bits kept. */
  method sextet(b1: Byte, b2: Byte, shift: nat) returns (s: Sextet)
    requires shift < 8 && shift % 2 == 0
    ensures s == Six(b1, b2, shift)
  {
    hide BitOr, Shl8, Shr8;
    JoinBits(b1, b2, shift);
    var buf1, buf2 := Shl8(b1, shift), Shr8(b2, 8 - shift);
    s := BitOr(buf1, buf2) / 4;
  }

  lemma SmallPowers()
    ensures Pow2(0) == 1 && Pow2(2) == 4 && Pow2(4) == 16 && Pow2(6) == 64
  {
  }

  lemma Or2(a: nat, b: nat)
    requires b < 4
    ensures BitOr(4 * a, b) == 4 * a + b
  {
    hide BitOr, Pow2;
    SmallPowers();
    OrApart(2, a, b);
  }

  lemma Join2(b1: Byte, b2: Byte)
    ensures BitOr(b1 as int * 4 % 256, b2 as int / 64) / 4 == Six(b1, b2, 2)
  {
    hide BitOr;
    assert b1 as int * 4 % 256 == 4 * (b1 as int % 64);
    Or2(b1 as int % 64, b2 as int / 64);
  }

  lemma Or4(a: nat, b: nat)
    requires b < 16
    ensures BitOr(16 * a, b) == 16 * a + b
  {
    hide BitOr, Pow2;
    SmallPowers();
    OrApart(4, a, b);
  }

  lemma Join4(b1: Byte, b2: Byte)
    ensures BitOr(b1 as int * 16 % 256, b2 as int / 16) / 4 == Six(b1, b2, 4)
  {
    hide BitOr;
    assert b1 as int * 16 % 256 == 16 * (b1 as int % 16);
    Or4(b1 as int % 16, b2 as int / 16);
  }

  lemma Or6(a: nat, b: nat)
    requires b < 64
    ensures BitOr(64 * a, b) == 64 * a + b
  {
    hide BitOr, Pow2;
    SmallPowers();
    OrApart(6, a, b);
  }

  lemma Join6(b1: Byte, b2: Byte)
    ensures BitOr(b1 as int * 64 % 256, b2 as int / 4) / 4 == Six(b1, b2, 6)
  {
    hide BitOr;
    assert b1 as int * 64 % 256 == 64 * (b1 as int % 4);
    Or6(b1 as int % 4, b2 as int / 4);
  }

  lemma JoinBits(b1: Byte, b2: Byte, shift: nat)
    requires shift < 8 && shift % 2 == 0
    ensures BitOr(Shl8(b1, shift), Shr8(b2, 8 - shift)) / 4 == Six(b1, b2, shift)
  {
    hide BitOr;
    OrZero(b1);
    Join2(b1, b2);
    Join4(b1, b2);
    Join6(b1, b2);
  }

  function Six(buf1: Byte, buf2: Byte, shift: nat): Sextet
    requires shift % 2 == 0 && shift < 8
  {
    if shift == 0 then buf1 as int / 4
    else if shift == 6 then buf1 as int % 4 * 16 + buf2 as int / 16
    else if shift == 4 then buf1 as int % 16 * 4 + buf2 as int / 64
    else buf1 as int % 64
  }

  lemma SextetOfBits(x: seq<Byte>, k: nat)
    requires 6 * k < 8 * |x|
    ensures 6 * k % 8 % 2 == 0
    ensures SextetAt(x, k) == Six(x[6 * k / 8], ByteAt(x, 6 * k / 8 + 1), 6 * k % 8)
  {
  }

  type Word16 = w: int | 0 <= w < 0x1_0000

  /** What a character brings into the buffer: its six bits, nothing, or eight ones. */
  function Taken(ch: Byte): Byte {
    A2bRanges(ch);
    if 0x20 < ch && ch < 0x80 && A2b(ch) != 0xff then A2bRanges(ch - 0x20); A2b(ch - 0x20) else 0
  }

  lemma TakenValues(ch: Byte)
    ensures Taken(ch) < 64 || Taken(ch) == 0xff
  {
    hide A2b;
    if 0x20 < ch < 0x80 { A2bRanges(ch - 0x20); }
  }

  /** The eight ones spill into the two lowest bits that the buffer had. */
  predicate Spills(ch: Byte) { Taken(ch) == 0xff }

  /** The characters that pass the test at a2b[ch] although they are outside the alphabet. */
  lemma Strays(ch: Byte)
    ensures Spills(ch) <==> 0x21 <= ch <= 0x2a || ch == 0x2c || 0x2e <= ch <= 0x2f || ch == 0x3a || ch == 0x60 ||
                            0x7b <= ch <= 0x7f
  {
    hide A2b;
    A2bRanges(ch);
    if 0x20 < ch < 0x80 { A2bRanges(ch - 0x20); }
  }

  function Low6(ch: Byte): Sextet { if Spills(ch) then 63 else Taken(ch) as int % 64 }

  function Filled(w: int): int { w - w % 4 + 3 }

  function Before(buf: Word16, ch: Byte): Word16 { if Spills(ch) then Filled(buf) else buf }

  /** A character is taken into the buffer. */
  method takeChar(buf: Word16, ch: Byte) returns (buf': Word16)
    ensures buf' == Next16(Before(buf, ch), Low6(ch))
  {
    hide BitOr, A2b;
    TakenValues(ch);
    OrTaken(buf, ch);
    OrZero(buf as int * 64 % 0x1_0000);
    buf' := buf as int * 64 % 0x1_0000;
    if 0x20 < ch && ch < 0x80 {
      if A2b(ch) != 0xff {
        A2bRanges(ch - 0x20);
        OrFits16(buf', A2b(ch - 0x20));
        buf' := BitOr(buf', A2b(ch - 0x20));
      }
    }
  }

  lemma OrTaken(buf: Word16, ch: Byte)
    ensures BitOr(buf as int * 64 % 0x1_0000, Taken(ch)) == Next16(Before(buf, ch), Low6(ch))
  {
    hide BitOr, Next16, Taken, Filled;
    TakenValues(ch);
    Shifted(Before(buf, ch), Low6(ch));
    Shifted(buf, 0);
    NextOfZero(buf);
    if Spills(ch) {
      OrEight(buf as int % 1024);
      FilledLow(buf);
    } else {
      Or6(buf as int % 1024, Taken(ch));
    }
  }

  lemma NextOfZero(buf: Word16)
    ensures Next16(buf, 0) == buf as int * 64 % 0x1_0000
  {
  }

  lemma FilledLow(buf: Word16)
    ensures Filled(buf) % 1024 == Filled(buf as int % 1024)
  {
    var d, q := buf as int % 1024, buf as int / 1024;
    Remainder(buf as int, 4, 256 * q + d / 4, d % 4);
    Remainder(Filled(buf), 1024, q, Filled(d));
  }

  /** Eight ones over six zeros. */
  lemma OrEight(d: nat)
    ensures BitOr(64 * d, 0xff) == 64 * Filled(d) + 63
  {
    hide BitOr, Pow2;
    SmallPowers();
    OrStep(64 * d, 0xff);
    OrStep(32 * d, 0x7f);
    OrStep(16 * d, 0x3f);
    OrStep(8 * d, 0x1f);
    OrStep(4 * d, 0xf);
    OrStep(2 * d, 0x7);
    OrThree(d);
  }

  lemma OrThree(d: nat)
    ensures BitOr(d, 3) == Filled(d)
  {
    hide BitOr;
    OrStep(d, 3);
    OrOne(d / 2);
  }

  lemma OrFits16(x: Word16, y: Byte)
    ensures 0 <= BitOr(x, y) < 0x1_0000
  {
    hide BitOr, Pow2;
    Pow2Is16();
    OrBound(16, x, y);
  }

  lemma Pow2Is16()
    ensures Pow2(16) == 0x1_0000
  {
    assert Pow2(8) == 256;
    Pow2Add(8, 8);
  }

  /** The six bits that character k stands for: its own, with the two lowest set when the next character
      spills into them before they are read. */
  ghost function SextetOf(text: seq<Byte>, k: nat): Sextet
    requires k < |text|
  {
    if k % 4 != 3 && k + 1 < |text| && Spills(text[k + 1]) then Filled(Low6(text[k])) else Low6(text[k])
  }

  ghost function Sextets(text: seq<Byte>): (y: seq<Sextet>)
    ensures |y| == |text| && forall k :: 0 <= k < |y| ==> y[k] == SextetOf(text, k)
  {
    seq(|text|, k requires 0 <= k < |text| => SextetOf(text, k))
  }

  /** What the buffer still holds of the last character after c of them. */
  ghost predicate Held(buf: Word16, text: seq<Byte>, c: nat)
    requires c <= |text|
  {
    (c % 4 == 1 ==> buf % 64 == Low6(text[c - 1])) && (c % 4 == 2 ==> buf % 16 == Low6(text[c - 1]) % 16) &&
    (c % 4 == 3 ==> buf % 4 == Low6(text[c - 1]) % 4)
  }

  function Next16(buf: Word16, s: Sextet): Word16 { buf as int * 64 % 0x1_0000 + s }

  /** The buffer is ten old bits and six new ones. */
  lemma Shifted(buf: Word16, s: Sextet)
    ensures Next16(buf, s) == 64 * (buf as int % 1024) + s
  {
    var d, q := buf as int % 1024, buf as int / 1024;
    Remainder(buf as int * 64, 0x1_0000, q, 64 * d);
  }

  lemma OldBits(buf: Word16)
    ensures buf as int % 1024 % 64 == buf % 64 && buf as int % 1024 % 16 == buf % 16 && buf as int % 1024 % 4 == buf % 4
  {
    var d, q := buf as int % 1024, buf as int / 1024;
    Remainder(buf as int, 64, 16 * q + d / 64, d % 64);
    Remainder(buf as int, 16, 64 * q + d / 16, d % 16);
    Remainder(buf as int, 4, 256 * q + d / 4, d % 4);
  }

  lemma LowBits(buf: Word16, s: Sextet)
    ensures Next16(buf, s) % 64 == s && Next16(buf, s) % 16 == s % 16 && Next16(buf, s) % 4 == s % 4
  {
    hide Next16;
    Shifted(buf, s);
    var d, n := buf as int % 1024, Next16(buf, s);
    Remainder(n, 64, d, s);
    Remainder(n, 16, 4 * d + s / 16, s % 16);
    Remainder(n, 4, 16 * d + s / 4, s % 4);
  }

  lemma HeldNext(buf: Word16, text: seq<Byte>, c: nat)
    requires c < |text|
    ensures Held(Next16(Before(buf, text[c]), Low6(text[c])), text, c + 1)
  {
    hide Next16, Low6, Before;
    LowBits(Before(buf, text[c]), Low6(text[c]));
  }

  lemma Emitted1(buf: Word16, s: Sextet)
    ensures Next16(buf, s) / 16 % 256 == buf % 64 * 4 + s / 16
  {
    hide Next16;
    Shifted(buf, s);
    OldBits(buf);
    var d, n := buf as int % 1024, Next16(buf, s);
    Remainder(n, 16, 4 * d + s / 16, s % 16);
    Remainder(4 * d + s / 16, 256, d / 64, d % 64 * 4 + s / 16);
  }

  lemma Emitted2(buf: Word16, s: Sextet)
    ensures Next16(buf, s) / 4 % 256 == buf % 16 * 16 + s / 4
  {
    hide Next16;
    Shifted(buf, s);
    OldBits(buf);
    var d, n := buf as int % 1024, Next16(buf, s);
    Remainder(n, 4, 16 * d + s / 4, s % 4);
    Remainder(16 * d + s / 4, 256, d / 16, d % 16 * 16 + s / 4);
  }

  lemma Emitted3(buf: Word16, s: Sextet)
    ensures Next16(buf, s) % 256 == buf % 4 * 64 + s
  {
    hide Next16;
    Shifted(buf, s);
    OldBits(buf);
    var d, n := buf as int % 1024, Next16(buf, s);
    Remainder(n, 256, d / 4, d % 4 * 64 + s);
  }

  /** buf >> n in a byte, for the shifts that occur. */
  function Shifted8(buf: Word16, n: nat): Byte
    requires n < 8 && n % 2 == 0
  {
    if n == 0 then buf as int % 256 else if n == 2 then buf as int / 4 % 256
    else if n == 4 then buf as int / 16 % 256 else buf as int / 64 % 256
  }

  /** The next character may still fill the two lowest bits of what is held. */
  lemma FilledBits(buf: Word16)
    ensures Filled(buf) % 64 == Filled(buf % 64) && Filled(buf) % 16 == Filled(buf % 16) && Filled(buf) % 4 == 3
  {
    var q, r := buf as int / 4, buf as int % 4;
    Remainder(Filled(buf), 64, q / 16, 4 * (q % 16) + 3);
    Remainder(Filled(buf), 16, q / 4, 4 * (q % 4) + 3);
    Remainder(Filled(buf), 4, q, 3);
    Remainder(buf as int, 64, q / 16, 4 * (q % 16) + r);
    Remainder(buf as int, 16, q / 4, 4 * (q % 4) + r);
  }

  lemma HeldBefore(buf: Word16, text: seq<Byte>, c: nat)
    requires c < |text| && Held(buf, text, c) && c % 4 != 0
    ensures var y := SextetOf(text, c - 1); var b := Before(buf, text[c]);
            (c % 4 == 1 ==> b % 64 == y) && (c % 4 == 2 ==> b % 16 == y % 16) && (c % 4 == 3 ==> b % 4 == y % 4)
  {
    hide Low6, Spills;
    FilledBits(buf);
    FilledBits(Low6(text[c - 1]));
  }

  lemma UpperBits(text: seq<Byte>, k: nat)
    requires k < |text|
    ensures SextetOf(text, k) / 4 == Low6(text[k]) / 4 && (k % 4 == 3 ==> SextetOf(text, k) == Low6(text[k]))
    ensures SextetOf(text, k) / 16 == Low6(text[k]) / 16
  {
    hide Low6, Spills;
  }

  lemma Places(c: nat)
    requires c % 4 != 0
    ensures 3 * c / 4 == c / 4 * 3 + c % 4 - 1 && 3 * (c + 1) / 4 == 3 * c / 4 + 1
    ensures 3 * c / 4 / 3 == c / 4 && 3 * c / 4 % 3 == c % 4 - 1
  {
    var q, r := c / 4, c % 4;
    assert 3 * c == 4 * (3 * q + r - 1) + (4 - r);
  }

  /** The byte that is complete with character c, if one is. */
  lemma ByteOut(buf: Word16, text: seq<Byte>, c: nat)
    requires c < |text| && Held(buf, text, c) && c % 4 != 0
    ensures 3 * (c + 1) / 4 == 3 * c / 4 + 1 && 6 * (c + 1) - 8 * (3 * (c + 1) / 4) == 6 - 2 * (c % 4)
    ensures Shifted8(Next16(Before(buf, text[c]), Low6(text[c])), 6 - 2 * (c % 4)) ==
            DecodedAt(Sextets(text), 3 * c / 4)
  {
    hide Next16, Low6, Before, SextetOf;
    HeldBefore(buf, text, c);
    UpperBits(text, c);
    Places(c);
    var b, s := Before(buf, text[c]), Low6(text[c]);
    if c % 4 == 1 { Emitted1(b, s); }
    else if c % 4 == 2 { Emitted2(b, s); }
    else { Emitted3(b, s); }
  }

  /** The first n bytes that y decodes to are in t. */
  ghost predicate Emitted(t: seq<Byte>, y: seq<Sextet>, n: nat) {
    n <= |t| && n <= 3 * |y| / 4 && forall j :: 0 <= j < n ==> t[j] == DecodedAt(y, j)
  }

  lemma EmittedOneMore(t: seq<Byte>, t': seq<Byte>, y: seq<Sextet>, n: nat)
    requires Emitted(t, y, n) && n < |t| == |t'| && n < 3 * |y| / 4 && t' == t[n := DecodedAt(y, n)]
    ensures Emitted(t', y, n + 1)
  {
    hide DecodedAt;
  }

  lemma EmittedAll(t: seq<Byte>, y: seq<Sextet>)
    requires Emitted(t, y, 3 * |y| / 4)
    ensures t[..3 * |y| / 4] == Decoded(y)
  {
    hide DecodedAt;
  }

  lemma NothingEmitted(t: seq<Byte>, text: seq<Byte>)
    ensures Emitted(t, Sextets(text), 0) && Held(0, text, 0)
  {
  }

  /** ascii_to_bin on a zero-terminated text of len characters: three bytes for four characters, whatever
      they are. */
  method asciiToBin(out: array<Byte>, inp: array<Byte>, len: nat) returns (ret: int)
    requires len < inp.Length && inp[len] == 0 && forall j :: 0 <= j < len ==> inp[j] != 0
    requires out != inp && 3 * len / 4 <= out.Length
    modifies out
    ensures ret == 0
    ensures out[..3 * len / 4] == Decoded(Sextets(inp[..len]))
    ensures out[3 * len / 4..] == old(out[3 * len / 4..])
  {
    hide Decoded, Held, Emitted, DecodedAt, Next16, Before, Low6, Shifted8, Sextets;
    ghost var text := inp[..len];
    ghost var y := Sextets(text);
    NothingEmitted(out[..], text);
    var buf: Word16 := 0;
    var bitCount, outCount, inCount := 0, 0, 0;
    while inCount < len
      invariant inCount <= len && outCount == 3 * inCount / 4 && bitCount == 6 * inCount - 8 * outCount
      invariant Held(buf, text, inCount) && Emitted(out[..], y, outCount)
      invariant inp[..] == old(inp[..]) && out[3 * len / 4..] == old(out[3 * len / 4..])
    {
      HeldNext(buf, text, inCount);
      if inCount % 4 != 0 { ByteOut(buf, text, inCount); }
      buf := takeChar(buf, inp[inCount]);
      bitCount := bitCount + 6;
      if bitCount / 8 != 0 {
        bitCount := bitCount - 8;
        ghost var t := out[..];
        out[outCount] := Shifted8(buf, bitCount);
        EmittedOneMore(t, out[..], y, outCount);
        outCount := outCount + 1;
      }
      inCount := inCount + 1;
    }
    EmittedAll(out[..], y);
    ret := 0;
  }

  /** The characters of a text over the alphabet stand for their sextets. */
  lemma SextetsOfText(y: seq<Sextet>)
    ensures Sextets(Text(y)) == y
  {
    hide A2b, B2a;
    forall k | 0 <= k < |y| ensures Low6(Text(y)[k]) == y[k] && !Spills(Text(y)[k]) {
      AlphabetReadsBack(y[k]);
      AlphabetPasses(y[k]);
    }
  }

  /** ascii_to_bin undoes bin_to_ascii, for every number of bytes. */
  lemma TextRoundTrip(x: seq<Byte>)
    ensures Decoded(Sextets(Text(Encoded(x)))) == x
  {
    hide Decoded, Sextets, Text, Encoded;
    SextetsOfText(Encoded(x));
    RoundTrip(x);
  }
}
