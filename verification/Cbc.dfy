/** Cipher block chaining in src/aes.c: the plain C loops, and the decryptor that works on four, two and
    one blocks at a time. */
module Cbc {
  import opened AesSpec
  import opened Aes
  import opened AesKeys

  // ---- The mode (section 6.2 of NIST SP 800-38A)

  /** What is added to block j before it is encrypted: the IV, then the ciphertext block before. */
  ghost function Chain(E: State -> State, iv: State, ps: seq<State>, j: nat): State
    requires j <= |ps|
  {
    if j == 0 then iv else E(Add(Chain(E, iv, ps, j - 1), ps[j - 1]))
  }

  ghost function Encrypted(E: State -> State, iv: State, ps: seq<State>): (cs: seq<State>)
    ensures |cs| == |ps| && forall j :: 0 <= j < |ps| ==> cs[j] == Chain(E, iv, ps, j + 1)
  {
    seq(|ps|, j requires 0 <= j < |ps| => Chain(E, iv, ps, j + 1))
  }

  ghost function Before(iv: State, cs: seq<State>, j: nat): State
    requires j <= |cs|
  {
    if j == 0 then iv else cs[j - 1]
  }

  ghost function Opened(D: State -> State, iv: State, cs: seq<State>, j: nat): State
    requires j < |cs|
  {
    Add(D(cs[j]), Before(iv, cs, j))
  }

  ghost function Decrypted(D: State -> State, iv: State, cs: seq<State>): (ps: seq<State>)
    ensures |ps| == |cs| && forall j :: 0 <= j < |cs| ==> ps[j] == Opened(D, iv, cs, j)
  {
    seq(|cs|, j requires 0 <= j < |cs| => Opened(D, iv, cs, j))
  }

  lemma AddTwiceLeft(s: State, k: State)
    ensures Add(Add(k, s), k) == s
  {
    assert forall x, y :: Xor(x, y) == Xor(y, x) by {
      forall x, y ensures Xor(x, y) == Xor(y, x) { XorCommutes(x, y); }
    }
    assert Add(k, s) == Add(s, k);
    hide Add;
    InvMixColumnsFacts(s, k);
  }

  /** Decryption with the inverse of the block cipher undoes encryption, for any number of blocks. */
  lemma RoundTrip(E: State -> State, D: State -> State, iv: State, ps: seq<State>)
    requires forall x :: D(E(x)) == x
    ensures Decrypted(D, iv, Encrypted(E, iv, ps)) == ps
  {
    hide Add;
    var cs := Encrypted(E, iv, ps);
    forall j | 0 <= j < |ps| ensures Opened(D, iv, cs, j) == ps[j] {
      AddTwiceLeft(ps[j], Chain(E, iv, ps, j));
    }
  }

  // ---- Blocks in memory

  ghost function Blocks(s: seq<bv8>, n: nat): (bs: seq<State>)
    requires 16 * n <= |s|
    ensures |bs| == n && forall j :: 0 <= j < n ==> bs[j] == StateAt(s, 16 * j)
  {
    seq(n, j requires 0 <= j < n => StateAt(s, 16 * j))
  }

  /** s and t differ at most in the 16 bytes from off on. */
  ghost predicate SameBut(s: seq<bv8>, t: seq<bv8>, off: nat) {
    |s| == |t| && forall k :: 0 <= k < |s| && !(off <= k < off + 16) ==> s[k] == t[k]
  }

  lemma OtherBlock(s: seq<bv8>, t: seq<bv8>, i: nat, j: nat)
    requires SameBut(s, t, 16 * i) && i != j && 16 * j + 16 <= |s|
    ensures StateAt(s, 16 * j) == StateAt(t, 16 * j)
  {
  }

  /** memcpy of a block. */
  method copyBlock(dst: array<bv8>, d: nat, src: array<bv8>, s: nat)
    requires d + 16 <= dst.Length && s + 16 <= src.Length && dst != src
    modifies dst
    ensures StateAt(dst[..], d) == StateAt(src[..], s) && SameBut(old(dst[..]), dst[..], d)
  {
    forall k | d <= k < d + 16 {
      dst[k] := src[s + k - d];
    }
  }

  /** fix_xor. */
  method fixXor(target: array<bv8>, t: nat, source: array<bv8>, s: nat)
    requires t + 16 <= target.Length && s + 16 <= source.Length && target != source
    modifies target
    ensures StateAt(target[..], t) == Add(StateAt(old(target[..]), t), StateAt(source[..], s))
    ensures SameBut(old(target[..]), target[..], t)
  {
    hide Xor;
    forall k | t <= k < t + 16 {
      target[k] := Xor(target[k], source[s + k - t]);
    }
  }

  // ---- The plain C loops

  ghost function CipherWith(keys: seq<State>): State -> State
    requires |keys| >= 2
  {
    x => Cipher(x, keys)
  }

  ghost function EqInvCipherWith(keys: seq<State>): State -> State
    requires |keys| >= 2
  {
    x => EqInvCipher(x, keys)
  }

  /** The first i blocks of t are done, in s the blocks from i on are still as they were, and so is what
      follows the blocks in t. */
  ghost predicate Progress(s: seq<bv8>, t: seq<bv8>, todo: seq<State>, done: seq<State>, t0: seq<bv8>, i: nat) {
    |todo| == |done| >= i && 16 * |todo| <= |s| && 16 * |done| <= |t| == |t0| &&
    (forall j :: i <= j < |todo| ==> StateAt(s, 16 * j) == todo[j]) &&
    (forall j :: 0 <= j < i ==> StateAt(t, 16 * j) == done[j]) &&
    forall k :: 16 * |done| <= k < |t| ==> t[k] == t0[k]
  }

  lemma ProgressStart(s: seq<bv8>, t: seq<bv8>, todo: seq<State>, done: seq<State>)
    requires 16 * |todo| <= |s| && 16 * |done| <= |t| && |todo| == |done| && todo == Blocks(s, |todo|)
    ensures Progress(s, t, todo, done, t, 0)
  {
  }

  /** Block i is written, into t alone or, in place, into s and t. */
  lemma ProgressStep(s: seq<bv8>, t: seq<bv8>, s': seq<bv8>, t': seq<bv8>,
                     todo: seq<State>, done: seq<State>, t0: seq<bv8>, i: nat)
    requires Progress(s, t, todo, done, t0, i) && i < |todo| && SameBut(t, t', 16 * i)
    requires s' == s || (s == t && s' == t')
    requires StateAt(t', 16 * i) == done[i]
    ensures Progress(s', t', todo, done, t0, i + 1)
  {
    hide StateAt;
    forall j | 0 <= j < |todo| && j != i ensures StateAt(t', 16 * j) == StateAt(t, 16 * j) {
      OtherBlock(t, t', i, j);
    }
  }

  lemma ProgressEnd(s: seq<bv8>, t: seq<bv8>, todo: seq<State>, done: seq<State>, t0: seq<bv8>)
    requires Progress(s, t, todo, done, t0, |todo|)
    ensures Blocks(t, |done|) == done
    ensures forall k :: 16 * |done| <= k < |t| ==> t[k] == t0[k]
  {
  }

  lemma NextBlock(s: seq<bv8>, t: seq<bv8>, todo: seq<State>, done: seq<State>, t0: seq<bv8>, i: nat)
    requires Progress(s, t, todo, done, t0, i) && i < |todo|
    ensures 16 * i + 16 <= |s| && 16 * i + 16 <= |t| && StateAt(s, 16 * i) == todo[i]
  {
  }

  /** aes_cbc_encrypt, also in place. */
  method cbcEncrypt(out: array<bv8>, inp: array<bv8>, inLen: nat, iv: array<bv8>, ctx: Context)
    returns (written: nat)
    requires ctx.Valid() && inLen <= inp.Length && inLen <= out.Length && iv.Length >= 16
    modifies out
    ensures written == inLen / 16 * 16
    ensures Blocks(out[..], inLen / 16)
         == Encrypted(CipherWith(Keys(ctx.encRk[..], ctx.nr + 1)), StateAt(old(iv[..]), 0),
                      Blocks(old(inp[..]), inLen / 16))
    ensures forall k :: written <= k < out.Length ==> out[k] == old(out[k])
  {
    hide Chain, StateAt, Add, Progress, Keys, Cipher;
    var n := inLen / 16;
    ghost var E, iv0 := CipherWith(Keys(ctx.encRk[..], ctx.nr + 1)), StateAt(iv[..], 0);
    ghost var ps, out0 := Blocks(inp[..], n), out[..];
    ghost var cs := Encrypted(E, iv0, ps);
    ProgressStart(inp[..], out[..], ps, cs);
    ChainStart(E, iv0, ps);
    var tmp := new bv8[16];
    copyBlock(tmp, 0, iv, 0);
    var i := 0;
    while i < n
      invariant i <= n && StateAt(tmp[..], 0) == Chain(E, iv0, ps, i)
      invariant Progress(inp[..], out[..], ps, cs, out0, i)
    {
      ChainStep(E, iv0, ps, i);
      ghost var s, t := inp[..], out[..];
      NextBlock(s, t, ps, cs, out0, i);
      fixXor(tmp, 0, inp, i * 16);
      internalEncrypt(ctx.encRk, ctx.nr, tmp, 0, tmp, 0);
      copyBlock(out, i * 16, tmp, 0);
      ProgressStep(s, t, inp[..], out[..], ps, cs, out0, i);
      i := i + 1;
    }
    ProgressEnd(inp[..], out[..], ps, cs, out0);
    written := n * 16;
  }

  lemma ChainStart(E: State -> State, iv: State, ps: seq<State>)
    ensures Chain(E, iv, ps, 0) == iv
  {
  }

  lemma ChainStep(E: State -> State, iv: State, ps: seq<State>, i: nat)
    requires i < |ps|
    ensures Chain(E, iv, ps, i + 1) == E(Add(Chain(E, iv, ps, i), ps[i]))
  {
  }

  /** aes_cbc_decrypt, also in place. */
  method cbcDecrypt(out: array<bv8>, inp: array<bv8>, inLen: nat, iv: array<bv8>, ctx: Context)
    returns (written: nat)
    requires ctx.Valid() && inLen <= inp.Length && inLen <= out.Length && iv.Length >= 16
    modifies out
    ensures written == inLen / 16 * 16
    ensures Blocks(out[..], inLen / 16)
         == Decrypted(EqInvCipherWith(Keys(ctx.decRk[..], ctx.nr + 1)), StateAt(old(iv[..]), 0),
                      Blocks(old(inp[..]), inLen / 16))
    ensures forall k :: written <= k < out.Length ==> out[k] == old(out[k])
  {
    hide StateAt, Add, Progress, Keys, EqInvCipher, SameBut, Blocks, Decrypted, InverseKeys, Before;
    var n := inLen / 16;
    ghost var D, iv0 := EqInvCipherWith(Keys(ctx.decRk[..], ctx.nr + 1)), StateAt(iv[..], 0);
    ghost var cs, out0 := Blocks(inp[..], n), out[..];
    ghost var ps := Decrypted(D, iv0, cs);
    ProgressStart(inp[..], out[..], cs, ps);
    BeforeStart(iv0, cs);
    var tmp := new bv8[16];
    var oldBlock := new bv8[16];
    copyBlock(tmp, 0, iv, 0);
    var i := 0;
    while i < n
      invariant i <= n && StateAt(tmp[..], 0) == Before(iv0, cs, i)
      invariant Progress(inp[..], out[..], cs, ps, out0, i)
    {
      ghost var s, t := inp[..], out[..];
      NextBlock(s, t, cs, ps, out0, i);
      BeforeNext(iv0, cs, i);
      copyBlock(oldBlock, 0, inp, i * 16);
      internalDecrypt(ctx.decRk, ctx.nr, inp, i * 16, out, i * 16);
      ghost var mid := out[..];
      ElsewhereSame(t, mid, i * 16);
      fixXor(out, i * 16, tmp, 0);
      SameTwice(t, mid, out[..], i * 16);
      ProgressStep(s, t, inp[..], out[..], cs, ps, out0, i);
      copyBlock(tmp, 0, oldBlock, 0);
      i := i + 1;
    }
    ProgressEnd(inp[..], out[..], cs, ps, out0);
    written := n * 16;
  }

  lemma BeforeStart(iv: State, cs: seq<State>)
    ensures Before(iv, cs, 0) == iv
  {
  }

  lemma BeforeNext(iv: State, cs: seq<State>, i: nat)
    requires i < |cs|
    ensures Before(iv, cs, i + 1) == cs[i]
  {
  }

  lemma ElsewhereSame(s: seq<bv8>, t: seq<bv8>, off: nat)
    requires |s| == |t| && forall k :: 0 <= k < |s| && !(off <= k < off + 16) ==> t[k] == s[k]
    ensures SameBut(s, t, off)
  {
  }

  lemma SameTwice(s: seq<bv8>, t: seq<bv8>, r: seq<bv8>, off: nat)
    requires SameBut(s, t, off) && SameBut(t, r, off)
    ensures SameBut(s, r, off)
  {
  }

  // ---- Four, two and one blocks at a time

  /** _mm_storeu_si128. */
  method storeBlock(out: array<bv8>, off: nat, s: State)
    requires off + 16 <= out.Length
    modifies out
    ensures StateAt(out[..], off) == s && SameBut(old(out[..]), out[..], off)
  {
    storeColumn(out, off, s.s0);
    storeColumn(out, off + 4, s.s1);
    storeColumn(out, off + 8, s.s2);
    storeColumn(out, off + 12, s.s3);
  }

  method storeColumn(out: array<bv8>, off: nat, p: Column)
    requires off + 4 <= out.Length
    modifies out
    ensures ColumnAt(out[..], off) == p
    ensures forall k :: 0 <= k < out.Length && !(off <= k < off + 4) ==> out[k] == old(out[k])
  {
    out[off], out[off + 1], out[off + 2], out[off + 3] := p.a, p.b, p.c, p.d;
  }

  /** A block leaves its rail and is stored. */
  method finishRail(D: State -> State, out: array<bv8>, inp: array<bv8>, i: nat, tmp: State, ivec: State,
                    ghost iv: State, ghost cs: seq<State>, ghost out0: seq<bv8>)
    requires i < |cs| && Progress(inp[..], out[..], cs, Decrypted(D, iv, cs), out0, i)
    requires tmp == cs[i] && ivec == Before(iv, cs, i)
    modifies out
    ensures Progress(inp[..], out[..], cs, Decrypted(D, iv, cs), out0, i + 1)
  {
    hide StateAt, Add, Progress, SameBut, Decrypted;
    ghost var s, t := inp[..], out[..];
    NextBlock(s, t, cs, Decrypted(D, iv, cs), out0, i);
    storeBlock(out, 16 * i, Add(D(tmp), ivec));
    ProgressStep(s, t, inp[..], out[..], cs, Decrypted(D, iv, cs), out0, i);
  }

  method load(inp: array<bv8>, ghost out: seq<bv8>, i: nat, ghost cs: seq<State>, ghost ps: seq<State>,
              ghost out0: seq<bv8>, ghost d: nat) returns (b: State)
    requires d <= i < |cs| && Progress(inp[..], out, cs, ps, out0, d)
    ensures b == cs[i]
  {
    assert 16 * i + 16 <= 16 * |cs| <= inp.Length;
    b := StateAt(inp[..], 16 * i);
  }

  /** aes_cbc_decrypt for AES-NI, with its block function D as a parameter: what the loop with four
      rails, the step with two and the last block write is what one block at a time would. */
  method cbcDecryptRails(D: State -> State, out: array<bv8>, inp: array<bv8>, inLen: nat, iv: array<bv8>)
    returns (ret: nat)
    requires inLen <= inp.Length && inLen <= out.Length && iv.Length >= 16
    modifies out
    ensures ret == inLen % 16
    ensures Blocks(out[..], inLen / 16)
         == Decrypted(D, StateAt(old(iv[..]), 0), Blocks(old(inp[..]), inLen / 16))
    ensures forall k :: inLen / 16 * 16 <= k < out.Length ==> out[k] == old(out[k])
  {
    hide StateAt, Add, Progress, Decrypted, Opened;
    ret := inLen % 16;
    var n := inLen / 16;
    var ivec := StateAt(iv[..], 0);
    ghost var iv0, cs, out0 := ivec, Blocks(inp[..], n), out[..];
    ghost var ps := Decrypted(D, iv0, cs);
    ProgressStart(inp[..], out[..], cs, ps);
    var i := 0;
    while n > 3
      invariant 0 <= n && n + i == |cs| && ivec == Before(iv0, cs, i)
      invariant Progress(inp[..], out[..], cs, ps, out0, i)
      decreases n
    {
      var tmp1 := load(inp, out[..], i, cs, ps, out0, i);
      var tmp2 := load(inp, out[..], i + 1, cs, ps, out0, i);
      var tmp3 := load(inp, out[..], i + 2, cs, ps, out0, i);
      var tmp4 := load(inp, out[..], i + 3, cs, ps, out0, i);
      finishRail(D, out, inp, i, tmp1, ivec, iv0, cs, out0);
      finishRail(D, out, inp, i + 1, tmp2, tmp1, iv0, cs, out0);
      finishRail(D, out, inp, i + 2, tmp3, tmp2, iv0, cs, out0);
      finishRail(D, out, inp, i + 3, tmp4, tmp3, iv0, cs, out0);
      ivec := tmp4;
      i := i + 4;
      n := n - 4;
    }
    if n > 1 {
      n := n - 2;
      var tmp1 := load(inp, out[..], i, cs, ps, out0, i);
      var tmp2 := load(inp, out[..], i + 1, cs, ps, out0, i);
      finishRail(D, out, inp, i, tmp1, ivec, iv0, cs, out0);
      finishRail(D, out, inp, i + 1, tmp2, tmp1, iv0, cs, out0);
      ivec := tmp2;
      i := i + 2;
    }
    if n != 0 {
      var tmp := load(inp, out[..], i, cs, ps, out0, i);
      finishRail(D, out, inp, i, tmp, ivec, iv0, cs, out0);
    }
    ProgressEnd(inp[..], out[..], cs, ps, out0);
  }

  // ---- The whole cipher

  /** With the schedules of one key, aes_cbc_decrypt recovers what aes_cbc_encrypt encrypted: every
      key, initial vector and number of blocks. */
  lemma CbcRoundTrip(enc: seq<State>, dec: seq<State>, iv: State, ps: seq<State>)
    requires InverseKeys(dec, enc)
    ensures Decrypted(EqInvCipherWith(dec), iv, Encrypted(CipherWith(enc), iv, ps)) == ps
  {
    hide Cipher, EqInvCipher, Decrypted, Encrypted;
    forall x ensures EqInvCipherWith(dec)(CipherWith(enc)(x)) == x {
      InverseCipher(x, enc, dec);
    }
    RoundTrip(CipherWith(enc), EqInvCipherWith(dec), iv, ps);
  }
}
