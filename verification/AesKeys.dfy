/** The key schedules of src/aes.c and the context they fill. */
module AesKeys {
  import opened Bits
  import opened AesTables
  import opened AesSpec
  import opened Aes

  // ---- KeyExpansion (FIPS 197, section 5.2)

  function SubWord(w: bv32): bv32 { Word(Column(Sub(B3(w)), Sub(B2(w)), Sub(B1(w)), Sub(B0(w)))) }

  function RotWord(w: bv32): bv32 { (w << 8) | (w >> 24) }

  /** x^(j - 1). */
  ghost function RconByte(j: nat): bv8
    requires j >= 1
  {
    if j == 1 then 1 else XTime(RconByte(j - 1))
  }

  ghost function Rcon(j: nat): bv32
    requires j >= 1
  {
    (RconByte(j) as bv32) << 24
  }

  /** Word i of the schedule for a key of |key| words. */
  ghost function Expanded(key: seq<bv32>, i: nat): bv32
    requires |key| > 0
  {
    if i < |key| then key[i] else XorWord(Expanded(key, i - |key|), Fed(key, i, Expanded(key, i - 1)))
  }

  /** What the word before contributes to word i. */
  ghost function Fed(key: seq<bv32>, i: nat, temp: bv32): bv32
    requires i >= |key| > 0
  {
    if i % |key| == 0 then RconPositive(i, |key|); XorWord(SubWord(RotWord(temp)), Rcon(i / |key|))
    else if |key| > 6 && i % |key| == 4 then SubWord(temp)
    else temp
  }

  lemma RconPositive(i: nat, n: nat)
    requires i >= n > 0
    ensures i / n >= 1
  {
  }

  // ---- The table of round constants and the table form of SubWord

  function rcon(i: nat): bv32
    requires i < 10
  {
    match i
    case 0 => 0x01000000 case 1 => 0x02000000 case 2 => 0x04000000 case 3 => 0x08000000
    case 4 => 0x10000000 case 5 => 0x20000000 case 6 => 0x40000000 case 7 => 0x80000000
    case 8 => 0x1B000000 case 9 => 0x36000000
  }

  lemma RconTable(i: nat)
    requires i < 10
    ensures rcon(i) == Rcon(i + 1)
  {
    assert RconByte(10) == 0x36;
  }

  /** One byte of each word, from the top byte of x down. */
  function Select(x: bv32, y: bv32, z: bv32, w: bv32): bv32 {
    (x & 0xff000000) ^ (y & 0x00ff0000) ^ (z & 0x0000ff00) ^ (w & 0x000000ff)
  }

  lemma Selected(x: bv32, y: bv32, z: bv32, w: bv32)
    ensures Select(x, y, z, w) == Word(Column(B3(x), B2(y), B1(z), B0(w)))
  {
  }

  lemma Rotated(w: bv32)
    ensures B3(RotWord(w)) == B2(w) && B2(RotWord(w)) == B1(w) && B1(RotWord(w)) == B0(w)
    ensures B0(RotWord(w)) == B3(w)
  {
  }

  lemma TableForms(temp: bv32)
    ensures Select(Te4(B2(temp)), Te4(B1(temp)), Te4(B0(temp)), Te4(B3(temp))) == SubWord(RotWord(temp))
    ensures Select(Te4(B3(temp)), Te4(B2(temp)), Te4(B1(temp)), Te4(B0(temp))) == SubWord(temp)
  {
    hide Te4, Sub, RotWord, B0, B1, B2, B3, Word, Select;
    Rotated(temp);
    Te4Bytes(B3(temp));
    Te4Bytes(B2(temp));
    Te4Bytes(B1(temp));
    Te4Bytes(B0(temp));
    Selected(Te4(B2(temp)), Te4(B1(temp)), Te4(B0(temp)), Te4(B3(temp)));
    Selected(Te4(B3(temp)), Te4(B2(temp)), Te4(B1(temp)), Te4(B0(temp)));
  }

  /** The first word of a round of the key schedule. */
  function FirstWord(w: bv32, temp: bv32, rc: bv32): bv32 {
    XorWord(XorWord(w, Select(Te4(B2(temp)), Te4(B1(temp)), Te4(B0(temp)), Te4(B3(temp)))), rc)
  }

  /** The word in the middle of a round for keys of 256 bits. */
  function MiddleWord(w: bv32, temp: bv32): bv32 {
    XorWord(w, Select(Te4(B3(temp)), Te4(B2(temp)), Te4(B1(temp)), Te4(B0(temp))))
  }

  lemma XorWordAssociates(x: bv32, y: bv32, z: bv32)
    ensures XorWord(XorWord(x, y), z) == XorWord(x, XorWord(y, z))
  {
  }

  /** The first words of rk, up to word n, are those of the standard. */
  ghost predicate Filled(rk: seq<bv32>, key: seq<bv32>, n: nat)
    requires |key| > 0
  {
    n <= |rk| && forall j :: 0 <= j < n ==> rk[j] == Expanded(key, j)
  }

  lemma FirstStep(rk: seq<bv32>, key: seq<bv32>, i: nat, n: nat)
    requires i < 10 && n == |key| * (i + 1) && 0 < |key| <= n && Filled(rk, key, n)
    ensures FirstWord(rk[n - |key|], rk[n - 1], rcon(i)) == Expanded(key, n)
  {
    hide XorWord, SubWord, RotWord, Select, Te4, B0, B1, B2, B3, rcon;
    Remainder(n, |key|, i + 1, 0);
    TableForms(rk[n - 1]);
    RconTable(i);
    XorWordAssociates(rk[n - |key|], SubWord(RotWord(rk[n - 1])), rcon(i));
  }

  lemma MiddleStep(rk: seq<bv32>, key: seq<bv32>, i: nat, n: nat)
    requires |key| == 8 && n == 8 * i + 12 && Filled(rk, key, n)
    ensures MiddleWord(rk[n - 8], rk[n - 1]) == Expanded(key, n)
  {
    hide XorWord, SubWord, RotWord, Select, Te4, B0, B1, B2, B3;
    assert n % 8 == 4;
    TableForms(rk[n - 1]);
  }

  lemma PlainStep(rk: seq<bv32>, key: seq<bv32>, n: nat)
    requires 0 < |key| <= n && n % |key| != 0 && (|key| > 6 ==> n % |key| != 4) && Filled(rk, key, n)
    ensures XorWord(rk[n - |key|], rk[n - 1]) == Expanded(key, n)
  {
    hide XorWord, SubWord, RotWord;
  }

  // ---- The schedule by bytes

  lemma NextWord(rk: seq<bv32>, key: seq<bv32>, n: nat, i: nat)
    requires 0 < |key| <= i < n && Filled(rk, key, n)
    ensures rk[i] == XorWord(rk[i - |key|], Fed(key, i, rk[i - 1]))
  {
  }

  lemma InFilled(rk: seq<bv32>, key: seq<bv32>, n: nat)
    requires |key| > 0 && Filled(rk, key, n)
    ensures n <= |rk|
  {
  }

  lemma SubWordBytes(w: bv32)
    ensures Col(SubWord(w)) == SubColumn(Col(w))
    ensures var t := Col(w); Col(SubWord(RotWord(w))) == Column(Sub(t.b), Sub(t.c), Sub(t.d), Sub(t.a))
  {
    hide Sub, RotWord, B0, B1, B2, B3;
    Rotated(w);
    ColWord(SubColumn(Col(w)));
    ColWord(SubColumn(Col(RotWord(w))));
  }

  lemma RconBytes(j: nat)
    requires j >= 1
    ensures Col(Rcon(j)) == Column(RconByte(j), 0, 0, 0)
  {
  }

  /** Each word beyond the key is the one |key| places before it plus, byte by byte, the word before it: as it
      is, through the S-box in the middle of a round for 256 bits, and rotated, through the S-box and with
      the round constant at the start of a round. */
  lemma ScheduleLaw(rk: seq<bv32>, key: seq<bv32>, n: nat, i: nat)
    requires 0 < |key| <= i < n && Filled(rk, key, n)
    ensures i / |key| >= 1
    ensures var t := Col(rk[i - 1]);
            Col(rk[i]) == AddColumn(Col(rk[i - |key|]),
              if i % |key| == 0 then Column(Xor(Sub(t.b), RconByte(i / |key|)), Sub(t.c), Sub(t.d), Sub(t.a))
              else if |key| > 6 && i % |key| == 4 then Column(Sub(t.a), Sub(t.b), Sub(t.c), Sub(t.d))
              else t)
  {
    hide XorWord, SubWord, RotWord, Rcon, RconByte, Filled, Col, AddColumn, Sub, Expanded, Xor;
    RconPositive(i, |key|);
    InFilled(rk, key, n);
    NextWord(rk, key, n, i);
    ColXor(rk[i - |key|], Fed(key, i, rk[i - 1]));
    SubWordBytes(rk[i - 1]);
    if i % |key| == 0 {
      ColXor(SubWord(RotWord(rk[i - 1])), Rcon(i / |key|));
      RconBytes(i / |key|);
      AddTop(Col(SubWord(RotWord(rk[i - 1]))), RconByte(i / |key|));
    }
  }

  lemma AddTop(p: Column, x: bv8)
    ensures AddColumn(p, Column(x, 0, 0, 0)) == Column(Xor(p.a, x), p.b, p.c, p.d)
  {
  }

  // ---- The encryption schedule

  method firstWord(rk: array<bv32>, n: nat, i: nat, ghost key: seq<bv32>, nk: nat)
    requires nk == |key| && i < 10 && n == nk * (i + 1) && 0 < nk <= n < rk.Length && Filled(rk[..], key, n)
    modifies rk
    ensures Filled(rk[..], key, n + 1)
  {
    hide FirstWord, Expanded;
    FirstStep(rk[..], key, i, n);
    var temp := rk[n - 1];
    rk[n] := FirstWord(rk[n - nk], temp, rcon(i));
  }

  method middleWord(rk: array<bv32>, n: nat, ghost i: nat, ghost key: seq<bv32>)
    requires |key| == 8 && n == 8 * i + 12 && n < rk.Length && Filled(rk[..], key, n)
    modifies rk
    ensures Filled(rk[..], key, n + 1)
  {
    hide MiddleWord, Expanded;
    MiddleStep(rk[..], key, i, n);
    var temp := rk[n - 1];
    rk[n] := MiddleWord(rk[n - 8], temp);
  }

  method plainWord(rk: array<bv32>, n: nat, ghost key: seq<bv32>, nk: nat)
    requires nk == |key| && 0 < nk <= n < rk.Length && Filled(rk[..], key, n)
    requires n % nk != 0 && (nk > 6 ==> n % nk != 4)
    modifies rk
    ensures Filled(rk[..], key, n + 1)
  {
    hide XorWord, Expanded;
    PlainStep(rk[..], key, n);
    rk[n] := XorWord(rk[n - nk], rk[n - 1]);
  }

  method loadWord(rk: array<bv32>, j: nat, cipherKey: array<bv8>, ghost key: seq<bv32>)
    requires j < |key| && j < rk.Length && 4 * j + 4 <= cipherKey.Length && Filled(rk[..], key, j)
    requires key[j] == Word(ColumnAt(cipherKey[..], 4 * j))
    modifies rk
    ensures Filled(rk[..], key, j + 1)
  {
    hide Word, Col;
    var w := getU32(cipherKey, 4 * j);
    WordCol(w);
    rk[j] := w;
  }

  method setup128(rk: array<bv32>, ghost key: seq<bv32>)
    requires |key| == 4 && rk.Length >= 44 && Filled(rk[..], key, 4)
    modifies rk
    ensures Filled(rk[..], key, 44)
  {
    hide Filled;
    var i, r := 0, 0;
    while true
      invariant i < 10 && r == 4 * i && Filled(rk[..], key, r + 4)
      decreases 10 - i
    {
      firstWord(rk, r + 4, i, key, 4);
      plainWord(rk, r + 5, key, 4);
      plainWord(rk, r + 6, key, 4);
      plainWord(rk, r + 7, key, 4);
      i := i + 1;
      if i == 10 {
        return;
      }
      r := r + 4;
    }
  }

  method setup192(rk: array<bv32>, ghost key: seq<bv32>)
    requires |key| == 6 && rk.Length >= 52 && Filled(rk[..], key, 6)
    modifies rk
    ensures Filled(rk[..], key, 52)
  {
    hide Filled;
    var i, r := 0, 0;
    while true
      invariant i < 8 && r == 6 * i && Filled(rk[..], key, r + 6)
      decreases 8 - i
    {
      firstWord(rk, r + 6, i, key, 6);
      plainWord(rk, r + 7, key, 6);
      plainWord(rk, r + 8, key, 6);
      plainWord(rk, r + 9, key, 6);
      i := i + 1;
      if i == 8 {
        return;
      }
      plainWord(rk, r + 10, key, 6);
      plainWord(rk, r + 11, key, 6);
      r := r + 6;
    }
  }

  method setup256(rk: array<bv32>, ghost key: seq<bv32>)
    requires |key| == 8 && rk.Length >= 60 && Filled(rk[..], key, 8)
    modifies rk
    ensures Filled(rk[..], key, 60)
  {
    hide Filled;
    var i, r := 0, 0;
    while true
      invariant i < 7 && r == 8 * i && Filled(rk[..], key, r + 8)
      decreases 7 - i
    {
      firstWord(rk, r + 8, i, key, 8);
      plainWord(rk, r + 9, key, 8);
      plainWord(rk, r + 10, key, 8);
      plainWord(rk, r + 11, key, 8);
      i := i + 1;
      if i == 7 {
        return;
      }
      middleWord(rk, r + 12, i - 1, key);
      plainWord(rk, r + 13, key, 8);
      plainWord(rk, r + 14, key, 8);
      plainWord(rk, r + 15, key, 8);
      r := r + 8;
    }
  }

  predicate KeyBits(n: nat) { n == 128 || n == 192 || n == 256 }

  /** The key as big-endian words. */
  ghost function KeyWords(cipherKey: seq<bv8>, nk: nat): (key: seq<bv32>)
    requires 4 * nk <= |cipherKey|
    ensures |key| == nk && forall j :: 0 <= j < nk ==> key[j] == Word(ColumnAt(cipherKey, 4 * j))
  {
    seq(nk, j requires 0 <= j < nk => Word(ColumnAt(cipherKey, 4 * j)))
  }

  /** aes_internal_key_setup_enc: the number of rounds, and KeyExpansion in rk. */
  method keySetupEnc(rk: array<bv32>, cipherKey: array<bv8>, keyBits: nat) returns (nr: nat)
    requires KeyBits(keyBits) && 8 * cipherKey.Length == keyBits && rk.Length == 60
    modifies rk
    ensures nr == keyBits / 32 + 6
    ensures Filled(rk[..], KeyWords(cipherKey[..], keyBits / 32), 4 * (nr + 1))
  {
    hide Filled, KeyWords;
    ghost var key := KeyWords(cipherKey[..], keyBits / 32);
    NothingFilled(rk[..], key);
    loadWord(rk, 0, cipherKey, key);
    loadWord(rk, 1, cipherKey, key);
    loadWord(rk, 2, cipherKey, key);
    loadWord(rk, 3, cipherKey, key);
    if keyBits == 128 {
      setup128(rk, key);
      return 10;
    }
    loadWord(rk, 4, cipherKey, key);
    loadWord(rk, 5, cipherKey, key);
    if keyBits == 192 {
      setup192(rk, key);
      return 12;
    }
    loadWord(rk, 6, cipherKey, key);
    loadWord(rk, 7, cipherKey, key);
    setup256(rk, key);
    return 14;
  }

  lemma NothingFilled(rk: seq<bv32>, key: seq<bv32>)
    requires |key| > 0
    ensures Filled(rk, key, 0)
  {
  }

  // ---- The decryption schedule

  function XorFour(x: bv32, y: bv32, z: bv32, w: bv32): bv32 { XorWord(XorWord(XorWord(x, y), z), w) }

  /** INVMIXCOLRK. */
  function InvMixWord(w: bv32): bv32 {
    XorFour(Td0(B0(Te4(B3(w)))), Td1(B0(Te4(B2(w)))), Td2(B0(Te4(B1(w)))), Td3(B0(Te4(B0(w)))))
  }

  lemma InvMixBytes(a: bv8, b: bv8, c: bv8, d: bv8)
    ensures Col(XorFour(Td0(Sub(a)), Td1(Sub(b)), Td2(Sub(c)), Td3(Sub(d)))) == InvMixColumn(Column(a, b, c, d))
  {
    hide Col, Sub, InvSub, InvMixColumn, AddColumn, Td0, Td1, Td2, Td3, XorWord;
    InvSubSub(a);
    InvSubSub(b);
    InvSubSub(c);
    InvSubSub(d);
    DecBytes(Sub(a), Sub(b), Sub(c), Sub(d), 0);
    AddZero(InvMixColumn(Column(a, b, c, d)));
    XorZeroWord(XorFour(Td0(Sub(a)), Td1(Sub(b)), Td2(Sub(c)), Td3(Sub(d))));
  }

  lemma AddZero(p: Column)
    ensures AddColumn(p, Col(0)) == p
  {
  }

  lemma XorZeroWord(w: bv32)
    ensures XorWord(w, 0) == w
  {
  }

  lemma InvMixWordMixes(w: bv32)
    ensures Col(InvMixWord(w)) == InvMixColumn(Col(w))
  {
    hide Sub, InvMixColumn, Td0, Td1, Td2, Td3, Te4, B0, B1, B2, B3, XorFour;
    Te4Bytes(B3(w));
    Te4Bytes(B2(w));
    Te4Bytes(B1(w));
    Te4Bytes(B0(w));
    InvMixBytes(B3(w), B2(w), B1(w), B0(w));
  }

  /** Four words at i and four at j have changed places, and no others have changed. */
  ghost predicate Swapped(ws: seq<bv32>, vs: seq<bv32>, i: nat, j: nat)
    requires i + 4 <= j && j + 4 <= |ws| == |vs|
  {
    vs[i] == ws[j] && vs[i + 1] == ws[j + 1] && vs[i + 2] == ws[j + 2] && vs[i + 3] == ws[j + 3] &&
    vs[j] == ws[i] && vs[j + 1] == ws[i + 1] && vs[j + 2] == ws[i + 2] && vs[j + 3] == ws[i + 3] &&
    forall k :: 0 <= k < |ws| && !(i <= k < i + 4) && !(j <= k < j + 4) ==> vs[k] == ws[k]
  }

  lemma KeysSwapped(ws: seq<bv32>, vs: seq<bv32>, a: nat, b: nat)
    requires a < b && 4 * b + 4 <= |ws| == |vs| && Swapped(ws, vs, 4 * a, 4 * b)
    ensures KeyAt(vs, a) == KeyAt(ws, b) && KeyAt(vs, b) == KeyAt(ws, a)
    ensures forall m: nat :: 4 * m + 4 <= |ws| && m != a && m != b ==> KeyAt(vs, m) == KeyAt(ws, m)
  {
    hide Col;
  }

  method swapWords(rk: array<bv32>, i: nat, j: nat)
    requires i < j < rk.Length
    modifies rk
    ensures rk[i] == old(rk[j]) && rk[j] == old(rk[i])
    ensures forall k :: 0 <= k < rk.Length && k != i && k != j ==> rk[k] == old(rk[k])
  {
    var temp := rk[i];
    rk[i] := rk[j];
    rk[j] := temp;
  }

  /** The four exchanges of a turn of the loop that reverses the round keys. */
  method swapKeys(rk: array<bv32>, i: nat, j: nat)
    requires i + 4 <= j && j + 4 <= rk.Length
    modifies rk
    ensures Swapped(old(rk[..]), rk[..], i, j)
  {
    swapWords(rk, i, j);
    swapWords(rk, i + 1, j + 1);
    swapWords(rk, i + 2, j + 2);
    swapWords(rk, i + 3, j + 3);
  }

  ghost predicate Mixed(ws: seq<bv32>, vs: seq<bv32>, r: nat)
    requires r + 4 <= |ws| == |vs|
  {
    vs[r] == InvMixWord(ws[r]) && vs[r + 1] == InvMixWord(ws[r + 1]) &&
    vs[r + 2] == InvMixWord(ws[r + 2]) && vs[r + 3] == InvMixWord(ws[r + 3]) &&
    forall k :: 0 <= k < |ws| && !(r <= k < r + 4) ==> vs[k] == ws[k]
  }

  lemma KeyMixed(ws: seq<bv32>, vs: seq<bv32>, a: nat)
    requires 4 * a + 4 <= |ws| == |vs| && Mixed(ws, vs, 4 * a)
    ensures KeyAt(vs, a) == InvMixColumns(KeyAt(ws, a))
    ensures forall m: nat :: 4 * m + 4 <= |ws| && m != a ==> KeyAt(vs, m) == KeyAt(ws, m)
  {
    hide Col, InvMixWord, InvMixColumn;
    InvMixWordMixes(ws[4 * a]);
    InvMixWordMixes(ws[4 * a + 1]);
    InvMixWordMixes(ws[4 * a + 2]);
    InvMixWordMixes(ws[4 * a + 3]);
  }

  method invMixKey(rk: array<bv32>, r: nat)
    requires r + 4 <= rk.Length
    modifies rk
    ensures Mixed(old(rk[..]), rk[..], r)
  {
    hide InvMixWord;
    rk[r] := InvMixWord(rk[r]);
    rk[r + 1] := InvMixWord(rk[r + 1]);
    rk[r + 2] := InvMixWord(rk[r + 2]);
    rk[r + 3] := InvMixWord(rk[r + 3]);
  }

  /** The first loop of aes_internal_key_setup_dec: the round keys in the opposite order. */
  method reverseKeys(rk: array<bv32>, nr: nat)
    requires 4 * nr + 4 <= rk.Length && nr % 2 == 0
    modifies rk
    ensures forall m: nat :: m <= nr ==> KeyAt(rk[..], m) == old(KeyAt(rk[..], nr - m))
  {
    hide KeyAt, Swapped;
    ghost var enc := rk[..];
    var i, j := 0, 4 * nr;
    ghost var a := 0;
    while i < j
      invariant 0 <= a <= nr - a && i == 4 * a && j == 4 * (nr - a)
      invariant forall m: nat :: m <= nr && (m < a || nr - a < m) ==> KeyAt(rk[..], m) == KeyAt(enc, nr - m)
      invariant forall m: nat :: a <= m <= nr - a ==> KeyAt(rk[..], m) == KeyAt(enc, m)
      decreases j - i
    {
      ghost var was := rk[..];
      swapKeys(rk, i, j);
      KeysSwapped(was, rk[..], a, nr - a);
      i, j, a := i + 4, j - 4, a + 1;
    }
  }

  /** The second loop: InvMixColumns on all of them but the first and the last. */
  method mixKeys(rk: array<bv32>, nr: nat)
    requires 4 * nr + 4 <= rk.Length && nr > 0
    modifies rk
    ensures forall m: nat :: 0 < m < nr ==> KeyAt(rk[..], m) == InvMixColumns(old(KeyAt(rk[..], m)))
    ensures KeyAt(rk[..], 0) == old(KeyAt(rk[..], 0)) && KeyAt(rk[..], nr) == old(KeyAt(rk[..], nr))
  {
    hide KeyAt, InvMixColumns, Mixed;
    ghost var ks := rk[..];
    var r, i := 0, 1;
    while i < nr
      invariant 1 <= i <= nr && r == 4 * (i - 1)
      invariant forall m: nat :: 0 < m < i ==> KeyAt(rk[..], m) == InvMixColumns(KeyAt(ks, m))
      invariant forall m: nat :: m <= nr && (m == 0 || i <= m) ==> KeyAt(rk[..], m) == KeyAt(ks, m)
    {
      r := r + 4;
      ghost var was := rk[..];
      invMixKey(rk, r);
      KeyMixed(was, rk[..], i);
      i := i + 1;
    }
  }

  /** aes_internal_key_setup_dec: the round keys of the equivalent inverse cipher, for the keys enc
      that keySetupEnc computes. */
  method keySetupDec(rk: array<bv32>, cipherKey: array<bv8>, keyBits: nat) returns (nr: nat, ghost enc: seq<bv32>)
    requires KeyBits(keyBits) && 8 * cipherKey.Length == keyBits && rk.Length == 60
    modifies rk
    ensures nr == keyBits / 32 + 6 && |enc| == 60
    ensures Filled(enc, KeyWords(cipherKey[..], keyBits / 32), 4 * (nr + 1))
    ensures InverseKeys(Keys(rk[..], nr + 1), Keys(enc, nr + 1))
  {
    hide Filled, KeyWords, KeyAt, InvMixColumns;
    nr := keySetupEnc(rk, cipherKey, keyBits);
    enc := rk[..];
    reverseKeys(rk, nr);
    mixKeys(rk, nr);
  }

  // ---- The context

  /** aes_context_t. */
  class Context {
    const encRk: array<bv32>
    const decRk: array<bv32>
    var nr: nat

    /** Both schedules are for the same key, and decryption has the keys of the equivalent inverse. */
    ghost predicate Valid()
      reads this, encRk, decRk
    {
      encRk.Length == decRk.Length == 60 && RoundCount(nr) &&
      InverseKeys(Keys(decRk[..], nr + 1), Keys(encRk[..], nr + 1))
    }

    constructor ()
      ensures fresh(encRk) && fresh(decRk) && encRk != decRk && encRk.Length == decRk.Length == 60
    {
      encRk := new bv32[60](i => 0);
      decRk := new bv32[60](i => 0);
      nr := 0;
    }
  }

  /** Two schedules that are both the expansion of the key give the same round keys. */
  lemma SameKeys(ws: seq<bv32>, vs: seq<bv32>, key: seq<bv32>, n: nat)
    requires |key| > 0 && Filled(ws, key, 4 * n) && Filled(vs, key, 4 * n)
    ensures Keys(ws, n) == Keys(vs, n)
  {
    hide Expanded, Col;
    assert forall i :: 0 <= i < n ==> KeyAt(ws, i) == KeyAt(vs, i);
  }

  /** aes_init: -1 for a key of a wrong size, else a context with both schedules of the key. */
  method aesInit(key: array<bv8>, keySize: nat) returns (ret: int, ctx: Context)
    requires key.Length == keySize
    ensures fresh(ctx) && fresh(ctx.encRk) && fresh(ctx.decRk)
    ensures ret == (if KeyBits(8 * keySize) then 0 else -1)
    ensures ret == 0 ==> ctx.Valid() && ctx.nr == keySize / 4 + 6
    ensures ret == 0 ==> Filled(ctx.encRk[..], KeyWords(key[..], keySize / 4), 4 * (ctx.nr + 1))
  {
    ctx := new Context();
    if keySize != 16 && keySize != 24 && keySize != 32 {
      return -1, ctx;
    }
    keySetup(ctx, key, keySize);
    ret := 0;
  }

  /** The key material of aes_init. */
  method keySetup(ctx: Context, key: array<bv8>, keySize: nat)
    requires key.Length == keySize && KeyBits(8 * keySize)
    requires ctx.encRk != ctx.decRk && ctx.encRk.Length == ctx.decRk.Length == 60
    modifies ctx, ctx.encRk, ctx.decRk
    ensures ctx.Valid() && ctx.nr == keySize / 4 + 6
    ensures Filled(ctx.encRk[..], KeyWords(key[..], keySize / 4), 4 * (ctx.nr + 1))
  {
    hide Filled, KeyWords, InverseKeys;
    var n := keySetupEnc(ctx.encRk, key, 8 * keySize);
    var nr, enc := keySetupDec(ctx.decRk, key, 8 * keySize);
    SameKeys(ctx.encRk[..], enc, KeyWords(key[..], keySize / 4), nr + 1);
    ctx.nr := n;
  }
}
