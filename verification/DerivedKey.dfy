/**
 `hwkey_get_derived_key`: a key slot whose key is stored encrypted, as an
 initialization vector followed by ciphertext, and opened with another slot's key.
 */
module DerivedKey {
  import opened BitOps
  import opened Bytes
  import opened Cbc
  import opened Evp
  import opened HwkeySpec

  /** `Aborted` is a failed assertion, which ends the process. */
  datatype Outcome = Done(klen: nat) | Refused(status: Status) | Aborted

  /** Which calls into the crypto library work. */
  datatype Library = Library(alloc: bool, init: bool, initKey: bool, padding: bool, update: bool, final: bool)

  /** Everything up to and including the decryption call succeeds. */
  predicate Reached(wrapped: seq<byte>, retrieved: Reply, room: nat, lib: Library) {
    && retrieved.status == NoError && IsAesKey(retrieved.data)
    && BLOCK < |wrapped| <= BLOCK + room
    && lib.alloc && lib.init && lib.initKey && lib.padding && lib.update
  }

  /** Ciphertext that is not a whole number of blocks gets as far as the assertion on the output length. */
  predicate Misaligned(cipher: seq<byte>) {
    |cipher| % BLOCK != 0
  }

  function Verdict(wrapped: seq<byte>, retrieved: Reply, room: nat, lib: Library): (o: Outcome)
    ensures o.Aborted? <==> Reached(wrapped, retrieved, room, lib) && Misaligned(wrapped[BLOCK..])
    ensures o.Done? <==> Reached(wrapped, retrieved, room, lib) && !Misaligned(wrapped[BLOCK..]) && lib.final
    ensures o.Done? ==> o.klen == |wrapped| - BLOCK
  {
    if retrieved.status != NoError then
      Refused(retrieved.status)
    else if !IsAesKey(retrieved.data) || !lib.alloc || !lib.init || |wrapped| <= BLOCK then
      Refused(Generic)
    else if room < |wrapped| - BLOCK then
      Refused(BadLen)
    else if !lib.initKey || !lib.padding || !lib.update then
      Refused(Generic)
    else if Misaligned(wrapped[BLOCK..]) then
      Aborted
    else if !lib.final then
      Refused(Generic)
    else
      Done(|wrapped| - BLOCK)
  }

  /** The refusals: the retriever's own error, a wrapped key too long for the buffer, and anything else. */
  lemma RefusalCodes(wrapped: seq<byte>, retrieved: Reply, room: nat, lib: Library)
    ensures retrieved.status != NoError ==> Verdict(wrapped, retrieved, room, lib) == Refused(retrieved.status)
    ensures retrieved.status == NoError ==>
              var o, keyOk := Verdict(wrapped, retrieved, room, lib), |retrieved.data| in {16, 32};
              var started := keyOk && lib.alloc && lib.init && |wrapped| > 16;
              && (o == Refused(BadLen) <==> started && |wrapped| > 16 + room)
              && (o == Refused(Generic) <==>
                  !started || (|wrapped| <= 16 + room &&
                               (!lib.initKey || !lib.padding || !lib.update || (|wrapped| % 16 == 0 && !lib.final))))
              && (o.Refused? ==> o.status in {BadLen, Generic})
  {
  }

  /** One byte of ciphertext behind the initialization vector is enough to fail the assertion. */
  lemma OneByteOfCiphertextAborts()
    ensures Verdict(Zeros(17), Reply(NoError, Zeros(16)), 16, Library(true, true, true, true, true, true)) == Aborted
  {
  }

  /** The key buffer after the decryption call: the whole blocks in front are replaced. */
  function Opened(p: Prims, key: seq<byte>, iv: seq<byte>, cipher: seq<byte>, before: seq<byte>): (after: seq<byte>)
    requires Sized(p) && |iv| == BLOCK && |cipher| <= |before|
    ensures |after| == |before|
  {
    var n := WholeLen(CbcAlg, |cipher|);
    Decrypt(p, key, iv, cipher[..n]) + before[n..]
  }

  method GetDerivedKey(p: Prims, wrapped: seq<byte>, retrieved: Reply, kbuf: array<byte>, lib: Library)
    returns (o: Outcome)
    requires Sized(p)
    modifies kbuf
    ensures o == Verdict(wrapped, retrieved, kbuf.Length, lib)
    ensures kbuf[..] ==
            if Reached(wrapped, retrieved, kbuf.Length, lib)
            then Opened(p, retrieved.data, wrapped[..BLOCK], wrapped[BLOCK..], old(kbuf[..])) else old(kbuf[..])
    ensures o.Done? ==> o.klen == |wrapped| - 16 <= kbuf.Length
    ensures Reached(wrapped, retrieved, kbuf.Length, lib) ==>
              var k := |wrapped| / 16 - 1;
              && (forall i :: 0 <= i < k ==>
                    Block(kbuf[..], i) == XorSeq(p.dec(retrieved.data, Block(wrapped, i + 1)), Block(wrapped, i)))
              && kbuf[16 * k..] == old(kbuf[16 * k..])
  {
    if retrieved.status != NoError {
      return Refused(retrieved.status);
    }
    if |retrieved.data| != 16 && |retrieved.data| != 32 {
      return Refused(Generic);
    }
    if !lib.alloc {
      return Refused(Generic);
    }
    var ctx := new CipherCtx(p);
    var ok := ctx.InitAlg(CbcAlg, false, lib.init);
    if !ok {
      return Refused(Generic);
    }
    var ivLength := IvLength(CbcAlg);
    if ivLength >= |wrapped| {
      return Refused(Generic);
    }
    if kbuf.Length < |wrapped| - ivLength {
      return Refused(BadLen);
    }
    ok := ctx.InitKey(retrieved.data, wrapped[..ivLength], lib.initKey);
    if !ok {
      return Refused(Generic);
    }
    ok := ctx.DisablePadding(lib.padding);
    if !ok {
      return Refused(Generic);
    }
    ghost var before := kbuf[..];
    o := Decrypted(ctx, wrapped[ivLength..], kbuf, lib);
    if lib.update {
      OpenedBlocks(p, retrieved.data, wrapped, before, |wrapped| / 16 - 1);
    }
  }

  /** The last part, from the decryption call on. */
  method Decrypted(ctx: CipherCtx, cipher: seq<byte>, kbuf: array<byte>, lib: Library) returns (o: Outcome)
    requires Sized(ctx.prims) && ctx.alg == Some(CbcAlg) && !ctx.encrypt && !ctx.padding
    requires ctx.text == [] && ctx.expected == None && |ctx.iv| == BLOCK && |cipher| <= kbuf.Length
    modifies ctx`text, ctx`result, kbuf
    ensures o == if !lib.update then Refused(Generic)
                 else if Misaligned(cipher) then Aborted
                 else if !lib.final then Refused(Generic)
                 else Done(|cipher|)
    ensures kbuf[..] == if lib.update then Opened(ctx.prims, ctx.key, ctx.iv, cipher, old(kbuf[..])) else old(kbuf[..])
  {
    var ok, outLen := ctx.Update(cipher, kbuf, lib.update);
    if !ok {
      return Refused(Generic);
    }
    assert kbuf[..] == kbuf[..outLen] + kbuf[outLen..];
    if outLen != |cipher| {
      return Aborted;
    }
    ok := ctx.Final(lib.final);
    if !ok {
      return Refused(Generic);
    }
    return Done(|cipher|);
  }

  /**
   The slot's key is what was wrapped: for every block cipher with an inverse, every
   16- or 32-byte wrapping key, every initialization vector and every plaintext of one
   or more whole blocks that fits the buffer, all of it comes back and nothing else changes.
   */
  lemma OpensWhatWasWrapped(p: Prims, key: seq<byte>, iv: seq<byte>, plain: seq<byte>, before: seq<byte>)
    requires Sized(p) && Inverse(p) && IsAesKey(key) && |iv| == BLOCK
    requires 0 < |plain| <= |before| && |plain| % BLOCK == 0
    ensures var wrapped := iv + Encrypt(p, key, iv, plain);
            && Verdict(wrapped, Reply(NoError, key), |before|, Library(true, true, true, true, true, true))
               == Done(|plain|)
            && Opened(p, key, wrapped[..BLOCK], wrapped[BLOCK..], before) == plain + before[|plain|..]
  {
    var cipher := Encrypt(p, key, iv, plain);
    var wrapped := iv + cipher;
    assert wrapped[..BLOCK] == iv && wrapped[BLOCK..] == cipher;
    OpensBlocks(p, key, iv, plain, before);
  }

  lemma OpensBlocks(p: Prims, key: seq<byte>, iv: seq<byte>, plain: seq<byte>, before: seq<byte>)
    requires Sized(p) && Inverse(p) && |iv| == BLOCK
    requires |plain| <= |before| && |plain| % BLOCK == 0
    ensures Opened(p, key, iv, Encrypt(p, key, iv, plain), before) == plain + before[|plain|..]
  {
    var cipher := Encrypt(p, key, iv, plain);
    DecryptEncrypt(p, key, iv, plain);
    assert WholeLen(CbcAlg, |cipher|) == |cipher|;
    assert cipher[..|cipher|] == cipher;
  }

  lemma DecryptedBlock(p: Prims, key: seq<byte>, whole: seq<byte>, i: nat, next: nat)
    requires Sized(p) && |whole| % 16 == 0 && 16 * next + 16 <= |whole| && next == i + 1
    ensures |whole[16..]| % 16 == 0
    ensures Block(Decrypt(p, key, whole[..16], whole[16..]), i)
            == XorSeq(p.dec(key, Block(whole, next)), Block(whole, i))
  {
    DecryptBlock(p, key, whole[..16], whole[16..], i);
    BlockOfRest(whole, next, i);
    if i == 0 {
      assert Block(whole, 0) == whole[..16];
    } else {
      BlockOfRest(whole, i, i - 1);
    }
  }

  lemma BlockOfFront(s: seq<byte>, front: seq<byte>, i: nat)
    requires front <= s && 16 * i + 16 <= |front|
    ensures Block(front, i) == Block(s, i)
  {
  }

  /** With `k` whole blocks behind the initialization vector. */
  lemma OpenedFront(p: Prims, key: seq<byte>, wrapped: seq<byte>, before: seq<byte>, k: nat, whole: seq<byte>)
    requires Sized(p) && 16 * k + 16 <= |wrapped| < 16 * k + 32 && |wrapped| <= 16 + |before|
    requires whole == wrapped[..16 * k + 16]
    ensures |whole| % 16 == 0 && |whole[16..]| % 16 == 0 && whole[..16] == wrapped[..16]
    ensures Opened(p, key, wrapped[..16], wrapped[16..], before)
            == Decrypt(p, key, whole[..16], whole[16..]) + before[16 * k..]
  {
    assert WholeLen(CbcAlg, |wrapped[16..]|) == 16 * k;
    assert wrapped[16..][..16 * k] == whole[16..];
  }

  /**
   Block by block, for any stored key that comes to be decrypted: block `i` of the
   buffer is block `i + 1` of the stored key decrypted and xored with the block before it.
   */
  lemma OpenedBlock(p: Prims, key: seq<byte>, wrapped: seq<byte>, before: seq<byte>, k: nat, i: nat, next: nat)
    requires Sized(p) && 16 * k + 16 <= |wrapped| < 16 * k + 32 && |wrapped| <= 16 + |before|
    requires i < k && next == i + 1
    ensures Block(Opened(p, key, wrapped[..16], wrapped[16..], before), i)
            == XorSeq(p.dec(key, Block(wrapped, next)), Block(wrapped, i))
  {
    var whole := wrapped[..16 * k + 16];
    OpenedFront(p, key, wrapped, before, k, whole);
    DecryptedBlock(p, key, whole, i, next);
    var text := Decrypt(p, key, whole[..16], whole[16..]);
    BlockOfFront(text + before[16 * k..], text, i);
    BlockOfFront(wrapped, whole, i);
    BlockOfFront(wrapped, whole, next);
  }

  /** All `k` of them; what lies behind the whole blocks is as it was. */
  lemma OpenedBlocks(p: Prims, key: seq<byte>, wrapped: seq<byte>, before: seq<byte>, k: nat)
    requires Sized(p) && 16 * k + 16 <= |wrapped| < 16 * k + 32 && |wrapped| <= 16 + |before|
    ensures var after := Opened(p, key, wrapped[..16], wrapped[16..], before);
            && (forall i :: 0 <= i < k ==>
                  Block(after, i) == XorSeq(p.dec(key, Block(wrapped, i + 1)), Block(wrapped, i)))
            && after[16 * k..] == before[16 * k..]
  {
    var after := Opened(p, key, wrapped[..16], wrapped[16..], before);
    forall i | 0 <= i < k
      ensures Block(after, i) == XorSeq(p.dec(key, Block(wrapped, i + 1)), Block(wrapped, i))
    {
      OpenedBlock(p, key, wrapped, before, k, i, i + 1);
    }
    OpenedFront(p, key, wrapped, before, k, wrapped[..16 * k + 16]);
  }
}
