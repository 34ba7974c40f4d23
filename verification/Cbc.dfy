/**
 Cipher block chaining (section 6.2 of NIST SP 800-38A) over any block cipher that
 has an inverse, and a counter-mode AEAD as far as the AES service depends on it.
 */
module Cbc {
  import opened Bytes
  import opened BitOps

  const BLOCK: nat := 16

  /** The key lengths the services accept, AES-128 and AES-256. */
  predicate IsAesKey(key: seq<byte>) {
    |key| == 16 || |key| == 32
  }

  /** The primitives of the crypto library. Keys and blocks are byte strings. */
  datatype Prims = Prims(
    enc: (seq<byte>, seq<byte>) -> seq<byte>,
    dec: (seq<byte>, seq<byte>) -> seq<byte>,
    keystream: (seq<byte>, seq<byte>, nat) -> seq<byte>,
    mac: (seq<byte>, seq<byte>, seq<byte>, seq<byte>) -> seq<byte>)

  ghost predicate Sized(p: Prims) {
    && (forall key, b :: |b| == BLOCK ==> |p.enc(key, b)| == BLOCK)
    && (forall key, b :: |b| == BLOCK ==> |p.dec(key, b)| == BLOCK)
    && (forall key, iv, n :: |p.keystream(key, iv, n)| == n)
    && (forall key, iv, aad, text :: |p.mac(key, iv, aad, text)| == BLOCK)
  }

  /** Decrypting a block undoes encrypting it. */
  ghost predicate Inverse(p: Prims) {
    forall key, b :: |b| == BLOCK ==> p.dec(key, p.enc(key, b)) == b
  }

  function Encrypt(p: Prims, key: seq<byte>, iv: seq<byte>, text: seq<byte>): (r: seq<byte>)
    requires Sized(p) && |iv| == BLOCK && |text| % BLOCK == 0
    ensures |r| == |text|
    decreases |text|
  {
    if text == [] then
      []
    else
      var b := p.enc(key, XorSeq(text[..BLOCK], iv));
      b + Encrypt(p, key, b, text[BLOCK..])
  }

  function Decrypt(p: Prims, key: seq<byte>, iv: seq<byte>, text: seq<byte>): (r: seq<byte>)
    requires Sized(p) && |iv| == BLOCK && |text| % BLOCK == 0
    ensures |r| == |text|
    decreases |text|
  {
    if text == [] then
      []
    else
      XorSeq(p.dec(key, text[..BLOCK]), iv) + Decrypt(p, key, text[..BLOCK], text[BLOCK..])
  }

  /** Decryption undoes encryption under the same key and initialization vector, block after block. */
  lemma {:induction false} DecryptEncrypt(p: Prims, key: seq<byte>, iv: seq<byte>, text: seq<byte>)
    requires Sized(p) && Inverse(p) && |iv| == BLOCK && |text| % BLOCK == 0
    ensures Decrypt(p, key, iv, Encrypt(p, key, iv, text)) == text
    decreases |text|
  {
    if text != [] {
      var head := text[..BLOCK];
      var b := p.enc(key, XorSeq(head, iv));
      var rest := Encrypt(p, key, b, text[BLOCK..]);
      var all := Encrypt(p, key, iv, text);
      assert all == b + rest && all[..BLOCK] == b && all[BLOCK..] == rest;
      DecryptEncrypt(p, key, b, text[BLOCK..]);
      XorSeqCancels(head, iv);
      assert text == head + text[BLOCK..];
    }
  }

  // ----- the mode, block by block

  /** Block `i` of a text. */
  function Block(s: seq<byte>, i: nat): (b: seq<byte>)
    requires 16 * i + 16 <= |s|
    ensures |b| == 16
  {
    s[16 * i..16 * i + 16]
  }

  lemma BlockOfRest(s: seq<byte>, i: nat, before: nat)
    requires i == before + 1 && 16 * i + 16 <= |s|
    ensures Block(s, i) == Block(s[16..], before)
  {
  }

  /** Each block encrypts its text block xored with the ciphertext block before it, the first one with the IV. */
  lemma {:induction false} EncryptBlock(p: Prims, key: seq<byte>, iv: seq<byte>, text: seq<byte>, i: nat)
    requires Sized(p) && |iv| == 16 && |text| % 16 == 0 && 16 * i + 16 <= |text|
    ensures var cipher := Encrypt(p, key, iv, text);
            Block(cipher, i) == p.enc(key, XorSeq(Block(text, i), if i == 0 then iv else Block(cipher, i - 1)))
    decreases i
  {
    var cipher := Encrypt(p, key, iv, text);
    var first := p.enc(key, XorSeq(text[..16], iv));
    assert cipher[..16] == first && cipher[16..] == Encrypt(p, key, first, text[16..]);
    if i > 0 {
      var before := i - 1;
      EncryptBlock(p, key, first, text[16..], before);
      BlockOfRest(cipher, i, before);
      BlockOfRest(text, i, before);
      if i == 1 {
        assert Block(cipher, 0) == first;
      } else {
        BlockOfRest(cipher, before, i - 2);
      }
    }
  }

  /** Each block is decrypted and xored with the ciphertext block before it, the first one with the IV. */
  lemma {:induction false} DecryptBlock(p: Prims, key: seq<byte>, iv: seq<byte>, cipher: seq<byte>, i: nat)
    requires Sized(p) && |iv| == 16 && |cipher| % 16 == 0 && 16 * i + 16 <= |cipher|
    ensures Block(Decrypt(p, key, iv, cipher), i) ==
            XorSeq(p.dec(key, Block(cipher, i)), if i == 0 then iv else Block(cipher, i - 1))
    decreases i
  {
    var text := Decrypt(p, key, iv, cipher);
    assert text[..16] == XorSeq(p.dec(key, cipher[..16]), iv);
    assert text[16..] == Decrypt(p, key, cipher[..16], cipher[16..]);
    if i > 0 {
      var before := i - 1;
      DecryptBlock(p, key, cipher[..16], cipher[16..], before);
      BlockOfRest(text, i, before);
      BlockOfRest(cipher, i, before);
      if i == 1 {
        assert Block(cipher, 0) == cipher[..16];
      } else {
        BlockOfRest(cipher, before, i - 2);
      }
    }
  }
}
