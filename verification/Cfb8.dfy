/** The 8-bit cipher feedback stream of internal/network/crypto.go (section 6.3 of NIST SP 800-38A),
    over any block function. */
module Cfb8 {
  const BLOCK := 16

  type Text = seq<bv8>

  /** The block cipher under a fixed key; only the first byte of its output is ever used. */
  type Cipher = Text -> bv8

  function Xor(a: bv8, b: bv8): bv8 { a ^ b }

  lemma XorTwice(a: bv8, b: bv8)
    ensures Xor(Xor(a, b), b) == a
  {
  }

  /** The register with its oldest byte gone and `b` as its newest. */
  function Shift(sr: Text, b: bv8): (r: Text)
    requires |sr| == BLOCK
    ensures |r| == BLOCK
  {
    sr[1..] + [b]
  }

  function Output(cipher: Cipher, sr: Text, src: Text, decrypt: bool): (dst: Text)
    requires |sr| == BLOCK
    ensures |dst| == |src|
    decreases |src|
  {
    if src == [] then []
    else
      var out := Xor(src[0], cipher(sr));
      [out] + Output(cipher, Shift(sr, if decrypt then src[0] else out), src[1..], decrypt)
  }

  /** The register after `src`: it always takes in the ciphertext. */
  function Register(cipher: Cipher, sr: Text, src: Text, decrypt: bool): (r: Text)
    requires |sr| == BLOCK
    ensures |r| == BLOCK
    decreases |src|
  {
    if src == [] then sr
    else Register(cipher, Shift(sr, if decrypt then src[0] else Xor(src[0], cipher(sr))), src[1..], decrypt)
  }

  lemma FirstByte(cipher: Cipher, sr: Text, src: Text, decrypt: bool)
    requires |sr| == BLOCK && src != []
    ensures var out := Xor(src[0], cipher(sr));
            var next := Shift(sr, if decrypt then src[0] else out);
            && Output(cipher, sr, src, decrypt) == [out] + Output(cipher, next, src[1..], decrypt)
            && Register(cipher, sr, src, decrypt) == Register(cipher, next, src[1..], decrypt)
  {
  }

  lemma NoBytes(cipher: Cipher, sr: Text, decrypt: bool)
    requires |sr| == BLOCK
    ensures Output(cipher, sr, [], decrypt) == [] && Register(cipher, sr, [], decrypt) == sr
  {
  }

  /** The last sixteen bytes of a text. */
  function LastBlock(t: Text): Text
    requires |t| >= BLOCK
  {
    t[|t| - BLOCK..]
  }

  /** Every byte written is the byte read with the cipher of the sixteen ciphertext bytes before it added,
      those of the output when encrypting and of the input when decrypting; before them comes the start. */
  ghost predicate Enciphers(cipher: Cipher, iv: Text, src: Text, dst: Text, decrypt: bool)
    requires |iv| == 16 && |dst| == |src|
  {
    forall i :: 0 <= i < |src| ==> dst[i] ^ src[i] == cipher((iv + if decrypt then src else dst)[i..i + 16])
  }

  class Stream {
    const cipher: Cipher
    const decrypt: bool
    const sr: array<bv8>

    ghost predicate Valid() { sr.Length == BLOCK }

    constructor (cipher: Cipher, iv: Text, decrypt: bool)
      requires |iv| == BLOCK
      ensures Valid() && fresh(sr) && sr[..] == iv
      ensures this.cipher == cipher && this.decrypt == decrypt
    {
      this.cipher := cipher;
      this.decrypt := decrypt;
      sr := new bv8[BLOCK](i requires 0 <= i < BLOCK => iv[i]);
    }

    method ShiftIn(b: bv8)
      requires Valid()
      modifies sr
      ensures sr[..] == Shift(old(sr[..]), b)
    {
      forall i | 0 <= i < BLOCK - 1 {
        sr[i] := sr[i + 1];
      }
      sr[BLOCK - 1] := b;
    }

    /** `dst` may be `src` itself, as it is when a reader decrypts in place. */
    method XorKeyStream(dst: array<bv8>, src: array<bv8>)
      requires Valid() && src.Length <= dst.Length && dst != sr && src != sr
      modifies sr, dst
      ensures dst[..src.Length] == Output(cipher, old(sr[..]), old(src[..]), decrypt)
      ensures dst[src.Length..] == old(dst[src.Length..])
      ensures sr[..] == Register(cipher, old(sr[..]), old(src[..]), decrypt)
      ensures Enciphers(cipher, old(sr[..]), old(src[..]), dst[..src.Length], decrypt)
    {
      hide Xor, Shift, Output, Register, Enciphers;
      var n := src.Length;
      ghost var text := src[..];
      ghost var tail := dst[n..];
      ghost var start := sr[..];
      for i := 0 to n
        invariant src[i..] == text[i..] && dst[n..] == tail
        invariant dst[..i] + Output(cipher, sr[..], text[i..], decrypt) == Output(cipher, start, text, decrypt)
        invariant Register(cipher, sr[..], text[i..], decrypt) == Register(cipher, start, text, decrypt)
      {
        ghost var before, done := sr[..], dst[..i];
        assert text[i..][1..] == text[i + 1..];
        FirstByte(cipher, before, text[i..], decrypt);
        assert src[i] == src[i..][0] == text[i];
        var inp := src[i];
        var out := Xor(inp, cipher(sr[..]));
        dst[i] := out;
        ShiftIn(if decrypt then inp else out);
        assert dst[..i + 1] == done + [out];
        assert src[i + 1..] == text[i + 1..];
      }
      NoBytes(cipher, sr[..], decrypt);
      assert text[n..] == [];
      OutputEnciphers(cipher, start, text, decrypt);
    }
  }

  // ---- One stream, any calls

  lemma {:induction false} OutputSplit(cipher: Cipher, sr: Text, a: Text, b: Text, decrypt: bool)
    requires |sr| == BLOCK
    ensures Output(cipher, sr, a + b, decrypt)
         == Output(cipher, sr, a, decrypt) + Output(cipher, Register(cipher, sr, a, decrypt), b, decrypt)
    ensures Register(cipher, sr, a + b, decrypt) == Register(cipher, Register(cipher, sr, a, decrypt), b, decrypt)
    decreases |a|
  {
    hide Xor, Shift, Output, Register;
    if a == [] {
      assert a + b == b;
      NoBytes(cipher, sr, decrypt);
    } else {
      var out := Xor(a[0], cipher(sr));
      assert (a + b)[1..] == a[1..] + b;
      FirstByte(cipher, sr, a, decrypt);
      FirstByte(cipher, sr, a + b, decrypt);
      OutputSplit(cipher, Shift(sr, if decrypt then a[0] else out), a[1..], b, decrypt);
    }
  }

  function Joined(calls: seq<Text>): Text {
    if calls == [] then [] else calls[0] + Joined(calls[1..])
  }

  /** What consecutive calls of one stream write, one after the other. */
  function Outputs(cipher: Cipher, sr: Text, calls: seq<Text>, decrypt: bool): Text
    requires |sr| == BLOCK
    decreases |calls|
  {
    if calls == [] then []
    else
      Output(cipher, sr, calls[0], decrypt)
      + Outputs(cipher, Register(cipher, sr, calls[0], decrypt), calls[1..], decrypt)
  }

  lemma {:induction false} OutputsJoined(cipher: Cipher, sr: Text, calls: seq<Text>, decrypt: bool)
    requires |sr| == BLOCK
    ensures Outputs(cipher, sr, calls, decrypt) == Output(cipher, sr, Joined(calls), decrypt)
    decreases |calls|
  {
    if calls != [] {
      OutputSplit(cipher, sr, calls[0], Joined(calls[1..]), decrypt);
      OutputsJoined(cipher, Register(cipher, sr, calls[0], decrypt), calls[1..], decrypt);
    }
  }

  // ---- The register

  lemma {:induction false} DecryptRegister(cipher: Cipher, sr: Text, ciphertext: Text)
    requires |sr| == BLOCK
    ensures Register(cipher, sr, ciphertext, true) == LastBlock(sr + ciphertext)
    decreases |ciphertext|
  {
    if ciphertext == [] {
      assert sr + ciphertext == sr;
    } else {
      var next := Shift(sr, ciphertext[0]);
      DecryptRegister(cipher, next, ciphertext[1..]);
      assert [sr[0]] + (next + ciphertext[1..]) == sr + ciphertext;
    }
  }

  lemma {:induction false} EncryptRegister(cipher: Cipher, sr: Text, plain: Text)
    requires |sr| == BLOCK
    ensures Register(cipher, sr, plain, false) == LastBlock(sr + Output(cipher, sr, plain, false))
    decreases |plain|
  {
    if plain == [] {
      assert sr + Output(cipher, sr, plain, false) == sr;
    } else {
      var out := Xor(plain[0], cipher(sr));
      var next := Shift(sr, out);
      EncryptRegister(cipher, next, plain[1..]);
      assert [sr[0]] + (next + Output(cipher, next, plain[1..], false)) == sr + Output(cipher, sr, plain, false);
    }
  }

  // ---- What is written

  lemma OutputEnciphers(cipher: Cipher, iv: Text, src: Text, decrypt: bool)
    requires |iv| == BLOCK
    ensures Enciphers(cipher, iv, src, Output(cipher, iv, src, decrypt), decrypt)
  {
    hide Output;
    var dst := Output(cipher, iv, src, decrypt);
    forall i | 0 <= i < |src| ensures dst[i] ^ src[i] == cipher((iv + if decrypt then src else dst)[i..i + 16]) {
      ByteEnciphered(cipher, iv, src, decrypt, i);
    }
  }

  lemma ByteEnciphered(cipher: Cipher, iv: Text, src: Text, decrypt: bool, i: nat)
    requires |iv| == BLOCK && i < |src|
    ensures var dst := Output(cipher, iv, src, decrypt);
            dst[i] ^ src[i] == cipher((iv + if decrypt then src else dst)[i..i + 16])
  {
    hide Output, Register;
    var a, b := src[..i], src[i..];
    assert a + b == src;
    OutputSplit(cipher, iv, a, b, decrypt);
    var dst, sr := Output(cipher, iv, src, decrypt), Register(cipher, iv, a, decrypt);
    assert dst[..i] == Output(cipher, iv, a, decrypt);
    if decrypt { DecryptRegister(cipher, iv, a); } else { EncryptRegister(cipher, iv, a); }
    FirstByte(cipher, sr, b, decrypt);
    assert dst[i] == Xor(src[i], cipher(sr));
    XorCancels(src[i], cipher(sr));
    var before := if decrypt then src else dst;
    assert (iv + before)[i..i + 16] == LastBlock(iv + before[..i]);
  }

  lemma XorCancels(a: bv8, b: bv8)
    ensures Xor(a, b) ^ a == b
  {
  }

  // ---- Decryption undoes encryption

  lemma {:induction false} Inverse(cipher: Cipher, sr: Text, plain: Text)
    requires |sr| == BLOCK
    ensures Output(cipher, sr, Output(cipher, sr, plain, false), true) == plain
    decreases |plain|
  {
    hide Xor;
    if plain != [] {
      XorTwice(plain[0], cipher(sr));
      Inverse(cipher, Shift(sr, Xor(plain[0], cipher(sr))), plain[1..]);
    }
  }

  /** However the sender cuts the plain text into calls and the receiver the cipher text. */
  lemma StreamsInverse(cipher: Cipher, iv: Text, sent: seq<Text>, received: seq<Text>)
    requires |iv| == BLOCK
    requires Joined(received) == Outputs(cipher, iv, sent, false)
    ensures Outputs(cipher, iv, received, true) == Joined(sent)
  {
    OutputsJoined(cipher, iv, sent, false);
    OutputsJoined(cipher, iv, received, true);
    Inverse(cipher, iv, Joined(sent));
  }

  // ---- Self-synchronisation

  /** Registers that agree on their newest bytes decrypt alike once the rest is shifted out. */
  lemma {:induction false} Resync(cipher: Cipher, sr: Text, wrong: Text, ciphertext: Text, agree: nat)
    requires |sr| == |wrong| == BLOCK && agree <= BLOCK && sr[BLOCK - agree..] == wrong[BLOCK - agree..]
    requires |ciphertext| + agree >= BLOCK
    ensures var k := BLOCK - agree;
            Output(cipher, wrong, ciphertext, true)[k..] == Output(cipher, sr, ciphertext, true)[k..]
    decreases |ciphertext|
  {
    if agree == BLOCK {
      assert sr == wrong;
    } else {
      var k := BLOCK - agree;
      var next, next' := Shift(sr, ciphertext[0]), Shift(wrong, ciphertext[0]);
      assert next[k - 1..] == sr[k..] + [ciphertext[0]];
      assert next'[k - 1..] == wrong[k..] + [ciphertext[0]];
      Resync(cipher, next, next', ciphertext[1..], agree + 1);
    }
  }

  /** A decrypter started with any wrong register recovers every byte after the first sixteen. */
  lemma WrongStart(cipher: Cipher, iv: Text, wrong: Text, plain: Text)
    requires |iv| == |wrong| == BLOCK && |plain| >= BLOCK
    ensures Output(cipher, wrong, Output(cipher, iv, plain, false), true)[BLOCK..] == plain[BLOCK..]
  {
    Resync(cipher, iv, wrong, Output(cipher, iv, plain, false), 0);
    Inverse(cipher, iv, plain);
  }
}
